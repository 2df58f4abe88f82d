/**
  Types and helpers shared by the DAT1 and DAT2 codecs: the compression level,
  the format-independent file entry, format sniffing and the path and file-name
  utilities.
*/
module Common {
  import opened Wrappers
  import opened Bytes

  // ---------------------------------------------------------------------------
  // Compression level
  // ---------------------------------------------------------------------------

  datatype LevelError = LevelOutOfRange(level: u8)

  /** `CompressionLevel(u8)`: only `New` builds one, and it admits 0 to 9. */
  datatype CompressionLevel = CompressionLevel(raw: u8) {
    /** `CompressionLevel::level` */
    function Level(): u8 { raw }
  }

  /** `CompressionLevel::new` */
  function NewCompressionLevel(level: u8): (r: Result<CompressionLevel, LevelError>)
    ensures r.Ok? <==> level <= 9
    ensures r.Ok? ==> r.value.Level() == level
    ensures r.Err? ==> r.error == LevelOutOfRange(level)
  {
    if level <= 9 then Ok(CompressionLevel(level)) else Err(LevelOutOfRange(level))
  }

  // ---------------------------------------------------------------------------
  // File entry
  // ---------------------------------------------------------------------------

  /**
    `FileEntry`: one archived file. `data` is present for files added in this
    session; otherwise the bytes live in the archive buffer at `offset`.
  */
  datatype FileEntry = FileEntry(
    name: string,
    offset: u64,
    size: u32,
    packedSize: u32,
    compressed: bool,
    data: Option<seq<u8>>)

  /**
    The entry invariant the codecs rely on when they save: in-memory bytes are
    exactly `packedSize` long, and an uncompressed entry is as long as its
    original.
  */
  predicate WellFormedEntry(e: FileEntry) {
    && (e.data.Some? ==> |e.data.value| == e.packedSize)
    && (!e.compressed ==> e.packedSize == e.size)
  }

  /** `FileEntry::with_data`; the caller is left to set `size`. */
  function WithData(name: string, data: seq<u8>, compressed: bool): (e: FileEntry)
    requires |data| < 0x1_0000_0000
    ensures e.name == name && e.data == Some(data) && e.compressed == compressed
    ensures e.packedSize == |data| && e.offset == 0 && e.size == 0
  {
    FileEntry(name, 0, 0, |data|, compressed, Some(data))
  }

  /** `FileEntry::with_compression_data`: keeps the compressed bytes and both sizes. */
  function WithCompressionData(name: string, original: seq<u8>, compressed: seq<u8>): (e: FileEntry)
    requires |original| < 0x1_0000_0000 && |compressed| < 0x1_0000_0000
    ensures e.name == name && e.data == Some(compressed) && e.compressed
    ensures e.size == |original| && e.packedSize == |compressed| && e.offset == 0
    ensures |compressed| <= |original| ==> WellFormedEntry(e)
  {
    FileEntry(name, 0, |original|, |compressed|, true, Some(compressed))
  }

  datatype ReadError = BeyondArchive(name: string)

  /** The number of bytes `read_file_data` yields for `e` when it succeeds. */
  function DataLen(e: FileEntry): nat {
    if e.data.Some? then |e.data.value| else e.packedSize
  }

  /**
    `read_file_data` of both codecs (and `read_file_data_from_bytes`): the
    entry's own bytes when it has them, otherwise its `packed_size` bytes at
    `offset` in the archive, which must lie inside it.
  */
  function ReadFileData(archive: seq<u8>, e: FileEntry): (r: Result<seq<u8>, ReadError>)
    ensures r.Ok? ==> |r.value| == DataLen(e)
    ensures e.data.Some? ==> r.Ok?
    ensures e.data.None? && r.Ok? ==> e.offset + e.packedSize <= |archive|
    ensures r.Err? ==> r.error == BeyondArchive(e.name)
  {
    if e.data.Some? then Ok(e.data.value)
    else if e.offset + e.packedSize > |archive| then Err(BeyondArchive(e.name))
    else Ok(archive[e.offset..e.offset + e.packedSize])
  }

  // ---------------------------------------------------------------------------
  // The data section `save` writes: every entry's data, in order
  // ---------------------------------------------------------------------------

  /** Where each file's data starts: the sum of the lengths before it. */
  function Offsets(contents: seq<seq<u8>>): (r: seq<nat>)
    ensures |r| == |contents|
  {
    seq(|contents|, i requires 0 <= i < |contents| => |Concat(contents[..i])|)
  }

  /** The bytes each entry contributes to the data section, read in order; the first failure wins. */
  function Contents(archive: seq<u8>, files: seq<FileEntry>): (r: Result<seq<seq<u8>>, ReadError>)
    ensures r.Ok? ==> |r.value| == |files|
    ensures r.Ok? ==> forall i :: 0 <= i < |files| ==> ReadFileData(archive, files[i]) == Ok(r.value[i])
    decreases |files|
  {
    if files == [] then Ok([])
    else
      var init := files[..|files| - 1];
      var last := files[|files| - 1];
      match Contents(archive, init)
      case Err(e) => Err(e)
      case Ok(contents) =>
        match ReadFileData(archive, last)
        case Err(e) => Err(e)
        case Ok(d) => Ok(contents + [d])
  }

  function SumDataLen(files: seq<FileEntry>): nat
    decreases |files|
  {
    if files == [] then 0 else DataLen(files[0]) + SumDataLen(files[1..])
  }

  lemma {:induction false} ContentsLen(archive: seq<u8>, files: seq<FileEntry>, contents: seq<seq<u8>>)
    requires Contents(archive, files) == Ok(contents)
    ensures |Concat(contents)| == SumDataLen(files)
    decreases |files|
  {
    if files != [] {
      var n := |files| - 1;
      ContentsLen(archive, files[1..], contents[1..]) by {
        ContentsTail(archive, files, contents);
      }
      assert contents == [contents[0]] + contents[1..];
    }
  }

  /** Dropping the first file drops the first contents. */
  lemma ContentsTail(archive: seq<u8>, files: seq<FileEntry>, contents: seq<seq<u8>>)
    requires files != [] && Contents(archive, files) == Ok(contents)
    ensures Contents(archive, files[1..]) == Ok(contents[1..])
  {
    ContentsOfReads(archive, files[1..], contents[1..]);
  }

  /** Contents is determined by the reads it makes. */
  lemma {:induction false} ContentsOfReads(archive: seq<u8>, files: seq<FileEntry>, contents: seq<seq<u8>>)
    requires |contents| == |files|
    requires forall i :: 0 <= i < |files| ==> ReadFileData(archive, files[i]) == Ok(contents[i])
    ensures Contents(archive, files) == Ok(contents)
    decreases |files|
  {
    if files != [] {
      var n := |files| - 1;
      ContentsOfReads(archive, files[..n], contents[..n]);
      assert contents == contents[..n] + [contents[n]];
    }
  }

  lemma OffsetsWithin(contents: seq<seq<u8>>, i: nat)
    requires i < |contents|
    ensures Offsets(contents)[i] + |contents[i]| <= |Concat(contents)|
  {
    ConcatAt(contents, i);
  }

  /** Once a read fails, the rest of the list does not matter. */
  lemma {:induction false} ContentsPrefixErr(archive: seq<u8>, files: seq<FileEntry>, k: nat)
    requires k <= |files| && Contents(archive, files[..k]).Err?
    ensures Contents(archive, files) == Contents(archive, files[..k])
    decreases |files| - k
  {
    if k < |files| {
      var init := files[..|files| - 1];
      assert init[..k] == files[..k];
      ContentsPrefixErr(archive, init, k);
    } else {
      assert files[..k] == files;
    }
  }

  lemma OffsetsSnoc(contents: seq<seq<u8>>, offset: nat)
    requires offset == |Concat(contents)|
    ensures forall d: seq<u8> {:trigger Offsets(contents + [d])} :: Offsets(contents + [d]) == Offsets(contents) + [offset]
  {
    forall d: seq<u8> ensures Offsets(contents + [d]) == Offsets(contents) + [offset] {
      var c := contents + [d];
      assert c[..|contents|] == contents;
      forall i | 0 <= i < |contents| ensures c[..i] == contents[..i] { }
    }
  }

  /** One more successful read extends the contents. */
  lemma ContentsSnoc(archive: seq<u8>, files: seq<FileEntry>, i: nat, contents: seq<seq<u8>>, d: seq<u8>)
    requires i < |files| && Contents(archive, files[..i]) == Ok(contents)
    requires ReadFileData(archive, files[i]) == Ok(d)
    ensures Contents(archive, files[..i + 1]) == Ok(contents + [d])
  {
    assert files[..i + 1][..i] == files[..i] && files[..i + 1][i] == files[i];
  }

  /** A failed read at `i` is the result of the whole list. */
  lemma ContentsFail(archive: seq<u8>, files: seq<FileEntry>, i: nat, contents: seq<seq<u8>>)
    requires i < |files| && Contents(archive, files[..i]) == Ok(contents)
    requires ReadFileData(archive, files[i]).Err?
    ensures Contents(archive, files) == Err(ReadFileData(archive, files[i]).error)
  {
    assert files[..i + 1][..i] == files[..i] && files[..i + 1][i] == files[i];
    ContentsPrefixErr(archive, files, i + 1);
  }

  /** Reading two lists one after the other: the first failure wins, otherwise the contents line up. */
  lemma {:induction false} ContentsAppend(archive: seq<u8>, xs: seq<FileEntry>, ys: seq<FileEntry>)
    ensures Contents(archive, xs + ys)
         == match Contents(archive, xs)
            case Err(e) => Err(e)
            case Ok(a) =>
              match Contents(archive, ys)
              case Err(e) => Err(e)
              case Ok(b) => Ok(a + b)
    decreases |ys|
  {
    if ys == [] {
      assert xs + ys == xs;
      if Contents(archive, xs).Ok? {
        assert Contents(archive, xs).value + [] == Contents(archive, xs).value;
      }
    } else {
      var init := ys[..|ys| - 1];
      assert (xs + ys)[..|xs + ys| - 1] == xs + init;
      assert (xs + ys)[|xs + ys| - 1] == ys[|ys| - 1];
      ContentsAppend(archive, xs, init);
      if Contents(archive, xs).Ok? && Contents(archive, init).Ok? {
        var a, b := Contents(archive, xs).value, Contents(archive, init).value;
        if ReadFileData(archive, ys[|ys| - 1]).Ok? {
          assert a + b + [ReadFileData(archive, ys[|ys| - 1]).value] == a + (b + [ReadFileData(archive, ys[|ys| - 1]).value]);
        }
      }
    }
  }

  // ---------------------------------------------------------------------------
  // Format sniffing
  // ---------------------------------------------------------------------------

  const Dat1FormatId: u32 := 0x0A
  const Dat1AltFormatId: u32 := 0x5E

  /**
    `DatArchive::is_dat1_format`: the first two big-endian words must look like
    a plausible directory count and one of the two DAT1 identifiers.
  */
  function IsDat1Format(data: seq<u8>): (r: bool)
    ensures |data| < 16 ==> !r
    ensures r ==> 0 < ReadU32BE(data, 0) < 1000
    ensures r ==> ReadU32BE(data, 4) in {Dat1FormatId, Dat1AltFormatId}
    ensures |data| >= 16 && 0 < ReadU32BE(data, 0) < 1000 && ReadU32BE(data, 4) in {Dat1FormatId, Dat1AltFormatId} ==> r
  {
    if |data| < 16 then false
    else
      var dirCount := ReadU32BE(data, 0);
      var formatId := ReadU32BE(data, 4);
      0 < dirCount < 1000 && (formatId == Dat1FormatId || formatId == Dat1AltFormatId)
  }

  // ---------------------------------------------------------------------------
  // The `Vec<FileEntry>` operations both codecs use
  // ---------------------------------------------------------------------------

  function Names(entries: seq<FileEntry>): set<string> {
    set e | e in entries :: e.name
  }

  /** `retain`: the entries whose names are not in `names`, in order. */
  function Retained(files: seq<FileEntry>, names: set<string>): (r: seq<FileEntry>)
    ensures forall e :: multiset(r)[e] == if e.name in names then 0 else multiset(files)[e]
    decreases |files|
  {
    if files == [] then []
    else
      assert files == [files[0]] + files[1..];
      (if files[0].name in names then [] else [files[0]]) + Retained(files[1..], names)
  }

  /** `position(|file| file.name == name)` */
  function FindName(files: seq<FileEntry>, name: string): (r: Option<nat>)
    ensures r.Some? ==> r.value < |files| && files[r.value].name == name
    ensures r.Some? ==> forall k :: 0 <= k < r.value ==> files[k].name != name
    ensures r.None? ==> forall k :: 0 <= k < |files| ==> files[k].name != name
    decreases |files|
  {
    if files == [] then None
    else if files[0].name == name then Some(0)
    else
      var r := FindName(files[1..], name);
      if r.Some? then Some(r.value + 1) else None
  }

  /** `Vec::remove` */
  function RemoveAt(files: seq<FileEntry>, i: nat): (r: seq<FileEntry>)
    requires i < |files|
    ensures |r| == |files| - 1
    ensures forall k :: 0 <= k < i ==> r[k] == files[k]
    ensures forall k :: i <= k < |r| ==> r[k] == files[k + 1]
  {
    files[..i] + files[i + 1..]
  }

  /** `Vec::remove` takes out exactly the entry at the position. */
  lemma RemoveAtCounts(files: seq<FileEntry>, i: nat)
    requires i < |files|
    ensures multiset(RemoveAt(files, i)) == multiset(files) - multiset{files[i]}
  {
    assert files == files[..i] + [files[i]] + files[i + 1..];
  }

  // ---------------------------------------------------------------------------
  // Path utilities
  // ---------------------------------------------------------------------------

  predicate IsSeparator(c: char) { c == '/' || c == '\\' }

  /** `str::replace` of one character by another. */
  function Replace(s: string, from: char, to: char): (r: string)
    ensures |r| == |s|
    ensures forall i :: 0 <= i < |s| ==> r[i] == (if s[i] == from then to else s[i])
  {
    seq(|s|, i requires 0 <= i < |s| => if s[i] == from then to else s[i])
  }

  /** `utils::normalize_user_path`: backslashes become forward slashes. */
  function NormalizeUserPath(path: string): (r: string)
    ensures |r| == |path| && '\\' !in r
    ensures forall i :: 0 <= i < |path| && path[i] != '\\' ==> r[i] == path[i]
    ensures forall i :: 0 <= i < |path| && path[i] == '\\' ==> r[i] == '/'
  {
    Replace(path, '\\', '/')
  }

  /** `utils::normalize_path_for_archive`: forward slashes become backslashes. */
  function NormalizePathForArchive(path: string): (r: string)
    ensures |r| == |path| && '/' !in r
    ensures forall i :: 0 <= i < |path| && path[i] != '/' ==> r[i] == path[i]
    ensures forall i :: 0 <= i < |path| && path[i] == '/' ==> r[i] == '\\'
  {
    Replace(path, '/', '\\')
  }

  /** `str::rfind` of one character. */
  function RFind(s: string, c: char): (r: Option<nat>)
    ensures r.Some? ==> r.value < |s| && s[r.value] == c
    ensures r.Some? ==> forall j :: r.value < j < |s| ==> s[j] != c
    ensures r.None? ==> c !in s
    decreases |s|
  {
    if s == [] then None
    else if s[|s| - 1] == c then Some(|s| - 1)
    else RFind(s[..|s| - 1], c)
  }

  /**
    `utils::get_filename_from_dat_path`: what follows the rightmost '/' or '\',
    or the whole path when it has neither.
  */
  function GetFilenameFromDatPath(path: string): (r: string)
    ensures |r| <= |path| && r == path[|path| - |r|..]
    ensures forall i :: 0 <= i < |r| ==> !IsSeparator(r[i])
    ensures (forall i :: 0 <= i < |path| ==> !IsSeparator(path[i])) ==> r == path
    ensures (exists i :: 0 <= i < |path| && IsSeparator(path[i])) ==>
              |r| < |path| && IsSeparator(path[|path| - |r| - 1])
  {
    var lastSeparator :=
      match (RFind(path, '/'), RFind(path, '\\'))
      case (Some(f), Some(b)) => Some(if f < b then b else f)
      case (Some(f), None) => Some(f)
      case (None, Some(b)) => Some(b)
      case (None, None) => None;
    if lastSeparator.Some? then
      var pos := lastSeparator.value;
      assert path[pos + 1..] == path[|path| - |path[pos + 1..]|..];
      path[pos + 1..]
    else
      assert forall i :: 0 <= i < |path| ==> !IsSeparator(path[i]) by {
        forall i | 0 <= i < |path| ensures !IsSeparator(path[i]) {
          assert path[i] in path;
        }
      }
      path
  }

  /** `sub` occurs in `s` starting at index `i`. */
  predicate OccursAt(s: string, sub: string, i: int) {
    0 <= i && i + |sub| <= |s| && s[i..i + |sub|] == sub
  }

  /** `str::contains` with a string pattern: the matcher of list, extract and delete filters. */
  function Contains(s: string, sub: string): (r: bool)
    ensures r <==> exists i :: OccursAt(s, sub, i)
    decreases |s|
  {
    if |sub| > |s| then false
    else if sub <= s then
      assert OccursAt(s, sub, 0);
      true
    else
      var r := Contains(s[1..], sub);
      assert r ==> exists i :: OccursAt(s, sub, i) by {
        if r {
          var i :| OccursAt(s[1..], sub, i);
          assert s[1..][i..i + |sub|] == s[i + 1..i + 1 + |sub|];
          assert OccursAt(s, sub, i + 1);
        }
      }
      assert (exists i :: OccursAt(s, sub, i)) ==> r by {
        if i :| OccursAt(s, sub, i) {
          assert OccursAt(s, sub, 0) ==> sub <= s;
          assert i != 0;
          assert s[1..][i - 1..i - 1 + |sub|] == s[i..i + |sub|];
          assert OccursAt(s[1..], sub, i - 1);
        }
      }
      r
  }

  // ---------------------------------------------------------------------------
  // File-name bytes
  // ---------------------------------------------------------------------------

  /** The UTF-8 bytes of one character (`String::as_bytes` works a character at a time). */
  function Utf8(c: char): (r: seq<u8>)
    ensures 1 <= |r| <= 4
    ensures (c as int < 0x80) <==> |r| == 1
    ensures c as int < 0x80 ==> r == [c as int]
  {
    var v := c as int;
    if v < 0x80 then [v]
    else if v < 0x800 then [0xC0 + v / 0x40, 0x80 + v % 0x40]
    else if v < 0x1_0000 then [0xE0 + v / 0x1000, 0x80 + v / 0x40 % 0x40, 0x80 + v % 0x40]
    else [0xF0 + v / 0x4_0000, 0x80 + v / 0x1000 % 0x40, 0x80 + v / 0x40 % 0x40, 0x80 + v % 0x40]
  }

  /** `String::as_bytes`: the UTF-8 encoding the codecs write file and directory names in. */
  function NameBytes(s: string): (r: seq<u8>)
    ensures |r| >= |s|
    decreases |s|
  {
    if s == [] then [] else Utf8(s[0]) + NameBytes(s[1..])
  }

  /** The names the model reads back exactly: ASCII without NUL. */
  predicate IsPlainName(s: string) {
    forall i :: 0 <= i < |s| ==> 0 < s[i] as int < 0x80
  }

  /**
    `utils::decode_filename`: the bytes before the first NUL, one character per
    byte. This agrees with the source's UTF-8 and Windows-1252 decoders on
    ASCII; the decoding of bytes 0x80 and above is not modelled.
  */
  function DecodeFilename(bytes: seq<u8>): (r: string)
    ensures |r| <= |bytes|
    decreases |bytes|
  {
    if bytes == [] || bytes[0] == 0 then [] else [bytes[0] as char] + DecodeFilename(bytes[1..])
  }

  // ---------------------------------------------------------------------------
  // Properties of the name and path helpers
  // ---------------------------------------------------------------------------

  /** A plain name is written one byte per character, each byte its code. */
  lemma {:induction false} PlainNameBytes(s: string)
    requires IsPlainName(s)
    ensures |NameBytes(s)| == |s|
    ensures forall i :: 0 <= i < |s| ==> NameBytes(s)[i] == s[i] as int
    decreases |s|
  {
    if s != [] {
      var rest := s[1..];
      assert IsPlainName(rest) by {
        forall i | 0 <= i < |rest| ensures 0 < rest[i] as int < 0x80 {
          assert rest[i] == s[i + 1];
        }
      }
      PlainNameBytes(rest);
      assert NameBytes(s) == [s[0] as int] + NameBytes(rest);
    }
  }

  /** `as_bytes` distributes over concatenation. */
  lemma {:induction false} NameBytesAppend(a: string, b: string)
    ensures NameBytes(a + b) == NameBytes(a) + NameBytes(b)
    decreases |a|
  {
    if a != [] {
      assert (a + b)[1..] == a[1..] + b;
      NameBytesAppend(a[1..], b);
    } else {
      assert a + b == b;
    }
  }

  /** Decoding the written bytes of a plain name gives the name back. */
  lemma {:induction false} DecodeNameBytes(s: string)
    requires IsPlainName(s)
    ensures DecodeFilename(NameBytes(s)) == s
    decreases |s|
  {
    if s != [] {
      assert IsPlainName(s[1..]) by {
        forall i | 0 <= i < |s[1..]| ensures 0 < s[1..][i] as int < 0x80 {
          assert s[1..][i] == s[i + 1];
        }
      }
      DecodeNameBytes(s[1..]);
      assert s[0] as int < 0x80;
      var b := NameBytes(s);
      assert b == [s[0] as int] + NameBytes(s[1..]);
      assert b[1..] == NameBytes(s[1..]);
      assert s == [s[0]] + s[1..];
    }
  }

  /** Bytes past the first NUL never reach the decoded name. */
  lemma {:induction false} DecodeIgnoresTail(bytes: seq<u8>, tail: seq<u8>)
    requires 0 in bytes
    ensures DecodeFilename(bytes + tail) == DecodeFilename(bytes)
    decreases |bytes|
  {
    if bytes[0] != 0 {
      assert (bytes + tail)[1..] == bytes[1..] + tail;
      DecodeIgnoresTail(bytes[1..], tail);
    }
  }

  /** An archive path without backslashes comes back unchanged from the round trip to archive form. */
  lemma ArchivePathRoundTrip(path: string)
    requires '\\' !in path
    ensures NormalizeUserPath(NormalizePathForArchive(path)) == path
  {
    var r := NormalizeUserPath(NormalizePathForArchive(path));
    forall i | 0 <= i < |path| ensures r[i] == path[i] {
      assert path[i] != '\\' by { assert path[i] in path; }
    }
  }

  /** Normalising twice is normalising once, in either direction. */
  lemma NormalizeIdempotent(path: string)
    ensures NormalizeUserPath(NormalizeUserPath(path)) == NormalizeUserPath(path)
    ensures NormalizePathForArchive(NormalizePathForArchive(path)) == NormalizePathForArchive(path)
  {
    var u := NormalizeUserPath(path);
    forall i | 0 <= i < |u| ensures u[i] != '\\' { assert u[i] in u; }
    var a := NormalizePathForArchive(path);
    forall i | 0 <= i < |a| ensures a[i] != '/' { assert a[i] in a; }
  }

  /** An archive name without forward slashes comes back from the round trip to user form. */
  lemma UserPathRoundTrip(path: string)
    requires '/' !in path
    ensures NormalizePathForArchive(NormalizeUserPath(path)) == path
  {
    var r := NormalizePathForArchive(NormalizeUserPath(path));
    forall i | 0 <= i < |path| ensures r[i] == path[i] {
      assert path[i] != '/' by { assert path[i] in path; }
    }
  }

  /** No user input normalises to a name that holds a backslash. */
  lemma UserPathNeverMatches(input: string, name: string)
    requires '\\' in name
    ensures NormalizeUserPath(input) != name
  {
  }
}
