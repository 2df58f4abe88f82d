/**
  What DAT1's directory edits promise: `add_file` creates the target
  directory only when no directory has its name, and leaves exactly one entry
  of the added name, the new one, last in that directory, every other entry
  kept; `delete_file` removes exactly the first entry of the name it looks
  for. Also the case `delete_file` misses: every entry the parser reads into
  a directory other than "." is named `dir\name`, and the user's path is put
  in forward-slash form.
*/
module Dat1EditProps {
  import opened Wrappers
  import opened Bytes
  import opened Common
  import opened Dat1
  import opened Dat1Props
  import opened Dat1ReadProps

  // ---------------------------------------------------------------------------
  // add_file
  // ---------------------------------------------------------------------------

  /**
    `add_file` appends a directory exactly when none has the target name, keeps
    every directory's name, and afterwards the first directory of that name is
    the one the entry went into.
  */
  lemma AddedDirectories(dirs: seq<Directory>, req: AddRequest)
    requires RequestFits(req)
    ensures var r := Added(dirs, req);
            && |r| == |dirs| + (if FindDirectory(dirs, req.dirName).Some? then 0 else 1)
            && (forall k :: 0 <= k < |dirs| ==> r[k].name == dirs[k].name)
            && (FindDirectory(dirs, req.dirName).None? ==> r[|dirs|] == Directory(req.dirName, [NewEntry(req)]))
            && FindDirectory(r, req.dirName) == Some(WithDirectory(dirs, req.dirName).1)
  {
    var (withDir, index) := WithDirectory(dirs, req.dirName);
    var r := Added(dirs, req);
    assert forall k :: 0 <= k < |withDir| ==> r[k].name == withDir[k].name;
    if FindDirectory(dirs, req.dirName).None? {
      assert withDir[|dirs|] == Directory(req.dirName, []);
      assert forall k :: 0 <= k < |dirs| ==> r[k].name == dirs[k].name != req.dirName;
    }
    FindDirectoryAt(r, req.dirName, index);
  }

  /** The first directory of the name is at `k` when `k` has it and none before does. */
  lemma {:induction false} FindDirectoryAt(dirs: seq<Directory>, name: string, k: nat)
    requires k < |dirs| && dirs[k].name == name
    requires forall m :: 0 <= m < k ==> dirs[m].name != name
    ensures FindDirectory(dirs, name) == Some(k)
    decreases k
  {
    if k > 0 {
      FindDirectoryAt(dirs[1..], name, k - 1);
    }
  }

  /** The entries `Retained` keeps do not have a name it drops. */
  lemma RetainedNames(files: seq<FileEntry>, name: string, j: nat)
    requires j < |Retained(files, {name})|
    ensures Retained(files, {name})[j].name != name
  {
    var r := Retained(files, {name});
    assert r[j] in multiset(r);
  }

  /**
    After `add_file`, the added name is held by exactly one entry in the whole
    archive: the new one, last in the directory it went into.
  */
  lemma AddedOneEntry(dirs: seq<Directory>, req: AddRequest, k: nat, j: nat)
    requires RequestFits(req)
    requires k < |Added(dirs, req)| && j < |Added(dirs, req)[k].files|
    ensures var index := WithDirectory(dirs, req.dirName).1;
            var r := Added(dirs, req);
            && (r[k].files[j].name == req.archivePath <==> k == index && j == |r[index].files| - 1)
            && (k == index && j == |r[index].files| - 1 ==> r[k].files[j] == NewEntry(req))
  {
    var (withDir, index) := WithDirectory(dirs, req.dirName);
    var cleared := Cleared(withDir, req.archivePath);
    var r := Added(dirs, req);
    if k == index {
      assert r[k].files == cleared[k].files + [NewEntry(req)];
      if j < |cleared[k].files| {
        RetainedNames(withDir[k].files, req.archivePath, j);
      }
    } else {
      RetainedNames(withDir[k].files, req.archivePath, j);
    }
  }

  /** After `add_file`, the first directory holding the added name is the one it went into. */
  lemma AddedFound(dirs: seq<Directory>, req: AddRequest)
    requires RequestFits(req)
    ensures FirstDirWith(Added(dirs, req), req.archivePath) == Some(WithDirectory(dirs, req.dirName).1)
  {
    var index := WithDirectory(dirs, req.dirName).1;
    var r := Added(dirs, req);
    var last := |r[index].files| - 1;
    AddedOneEntry(dirs, req, index, last);
    forall m | 0 <= m < index ensures FindName(r[m].files, req.archivePath).None? {
      forall j | 0 <= j < |r[m].files| ensures r[m].files[j].name != req.archivePath {
        AddedOneEntry(dirs, req, m, j);
      }
    }
    assert FindName(r[index].files, req.archivePath).Some?;
    FirstDirWithAt(r, req.archivePath, index);
  }

  /** The first directory holding the name is at `k` when `k` holds it and none before does. */
  lemma {:induction false} FirstDirWithAt(dirs: seq<Directory>, name: string, k: nat)
    requires k < |dirs| && FindName(dirs[k].files, name).Some?
    requires forall m :: 0 <= m < k ==> FindName(dirs[m].files, name).None?
    ensures FirstDirWith(dirs, name) == Some(k)
    decreases k
  {
    if k > 0 {
      FirstDirWithAt(dirs[1..], name, k - 1);
    }
  }

  /** `add_file` keeps every entry of another name, in every directory, as often as it was there. */
  lemma AddedKeepsOthers(dirs: seq<Directory>, req: AddRequest, k: nat, e: FileEntry)
    requires RequestFits(req) && k < |dirs| && e.name != req.archivePath
    ensures multiset(Added(dirs, req)[k].files)[e] == multiset(dirs[k].files)[e]
  {
    var (withDir, index) := WithDirectory(dirs, req.dirName);
    var cleared := Cleared(withDir, req.archivePath);
    assert withDir[k] == dirs[k];
    if k == index {
      assert Added(dirs, req)[k].files == cleared[k].files + [NewEntry(req)];
    }
  }

  // ---------------------------------------------------------------------------
  // delete_file
  // ---------------------------------------------------------------------------

  /**
    `delete_file` takes out exactly one entry of the name it looks for, the
    first in the first directory holding one, and leaves every other
    directory as it was.
  */
  lemma DeletedOneEntry(dirs: seq<Directory>, name: string)
    requires FirstDirWith(dirs, name).Some?
    ensures var k := FirstDirWith(dirs, name).value;
            var i := FindName(dirs[k].files, name).value;
            var r := DeletedFrom(dirs, k, name);
            && |r| == |dirs| && dirs[k].files[i].name == name
            && (forall m :: 0 <= m < |dirs| && m != k ==> r[m] == dirs[m])
            && r[k].name == dirs[k].name
            && multiset(r[k].files) == multiset(dirs[k].files) - multiset{dirs[k].files[i]}
  {
    var k := FirstDirWith(dirs, name).value;
    RemoveAtCounts(dirs[k].files, FindName(dirs[k].files, name).value);
  }

  // ---------------------------------------------------------------------------
  // The entries `delete_file` cannot reach
  // ---------------------------------------------------------------------------

  /** `name` is the name the parser gives an entry of directory `dirName`: `dirName\…` outside the root. */
  predicate InDirectory(dirName: string, name: string) {
    dirName != RootName ==> |dirName| < |name| && name[..|dirName| + 1] == dirName + "\\"
  }

  /** Every entry of `d` is named from `d`'s name. */
  predicate FilesInDirectory(d: Directory) {
    forall j :: 0 <= j < |d.files| ==> InDirectory(d.name, d.files[j].name)
  }

  lemma FullNameInDirectory(dirName: string, name: string)
    ensures InDirectory(dirName, FullName(dirName, name))
  {
    if dirName != RootName {
      assert (dirName + "\\" + name)[..|dirName| + 1] == dirName + "\\";
    }
  }

  /**
    An entry named from its directory whose data reads back comes out of
    `save` and `open` as itself, at its new offset and without bytes of its own.
  */
  lemma RereadSame(dirName: string, e: FileEntry, off: u32)
    requires InDirectory(dirName, e.name) && DataReopens(e)
    ensures Reread(dirName, e, off) == e.(offset := off, data := None)
  {
    if dirName != RootName {
      var rest := e.name[|dirName| + 1..];
      assert e.name == dirName + "\\" + rest by {
        assert e.name == e.name[..|dirName| + 1] + rest;
      }
      assert StripsDir(dirName, e.name);
    }
  }

  /** The record loop names every entry from its directory. */
  lemma RecordsInDirectory(data: seq<u8>, at: nat, count: nat, dirName: string)
    requires RecordsFrom(data, at, count, dirName).Some?
    ensures forall j :: 0 <= j < count ==> InDirectory(dirName, RecordsFrom(data, at, count, dirName).value.0[j].name)
  {
    forall j | 0 <= j < count ensures InDirectory(dirName, RecordsFrom(data, at, count, dirName).value.0[j].name) {
      RecordsFromAt(data, at, count, dirName, j);
      var start := RecordStarts(data, at, count).value.0[j];
      FullNameInDirectory(dirName, DecodeFilename(data[start + 1..start + 1 + data[start]]));
    }
  }

  /** The directory loop names every entry from its directory. */
  lemma {:induction false} DirectoriesInDirectory(data: seq<u8>, at: nat, names: seq<string>)
    requires DirectoriesFrom(data, at, names).Some?
    ensures forall i :: 0 <= i < |names| ==> FilesInDirectory(DirectoriesFrom(data, at, names).value.0[i])
    decreases |names|
  {
    if names != [] {
      var (files, next) := RecordsFrom(data, at + BlockHeaderSize, ReadU32BE(data, at), names[0]).value;
      RecordsInDirectory(data, at + BlockHeaderSize, ReadU32BE(data, at), names[0]);
      DirectoriesInDirectory(data, next, names[1..]);
      var ds := DirectoriesFrom(data, at, names).value.0;
      var rest := DirectoriesFrom(data, next, names[1..]).value.0;
      assert ds == [Directory(names[0], files)] + rest;
      forall i | 0 <= i < |names| ensures FilesInDirectory(ds[i]) {
        if i > 0 {
          assert ds[i] == rest[i - 1];
        }
      }
    }
  }

  /** An opened archive names every entry from its directory: `dir\name` outside the root. */
  lemma OpenedInDirectory(data: seq<u8>)
    requires Opened(data).Ok?
    ensures forall k :: 0 <= k < |Opened(data).value| ==> FilesInDirectory(Opened(data).value[k])
  {
    var (names, end) := NamesFrom(data, HeaderSize, ReadU32BE(data, 0)).value;
    DirectoriesInDirectory(data, end, names);
  }

  /**
    `delete_file` finds nothing in a directory other than ".", whatever the
    user types: the names there hold a backslash, and the user's path is put
    in forward-slash form.
  */
  lemma DeleteMissesSubdirectories(dirs: seq<Directory>, input: string, k: nat)
    requires k < |dirs| && dirs[k].name != RootName && FilesInDirectory(dirs[k])
    ensures FindName(dirs[k].files, NormalizeUserPath(input)).None?
  {
    forall j | 0 <= j < |dirs[k].files| ensures dirs[k].files[j].name != NormalizeUserPath(input) {
      var name := dirs[k].files[j].name;
      assert name[|dirs[k].name|] == (dirs[k].name + "\\")[|dirs[k].name|] == '\\';
      UserPathNeverMatches(input, name);
    }
  }

  /** In an opened archive, `delete_file` can only ever delete from the root directory. */
  lemma DeleteOnlyInRoot(data: seq<u8>, input: string)
    requires Opened(data).Ok?
    ensures var ds := Opened(data).value;
            var hit := FirstDirWith(ds, NormalizeUserPath(input));
            hit.Some? ==> ds[hit.value].name == RootName
  {
    var ds := Opened(data).value;
    var hit := FirstDirWith(ds, NormalizeUserPath(input));
    if hit.Some? && ds[hit.value].name != RootName {
      OpenedInDirectory(data);
      DeleteMissesSubdirectories(ds, input, hit.value);
    }
  }

  /** The root and `art` holding `art\a.frm`: the one entry outside the root. */
  function ArtArchive(): seq<Directory> {
    [Directory(RootName, []), Directory("art", [FileEntry("art\\a.frm", 0, 0, 0, false, None)])]
  }

  /** `delete_file` of `art\a.frm` or of `art/a.frm` finds nothing in `ArtArchive`. */
  lemma DeleteMissesConcrete()
    ensures FirstDirWith(ArtArchive(), NormalizeUserPath("art\\a.frm")).None?
    ensures FirstDirWith(ArtArchive(), NormalizeUserPath("art/a.frm")).None?
  {
    var dirs := ArtArchive();
    FullNameInDirectory("art", "a.frm");
    assert FilesInDirectory(dirs[1]);
    DeleteMissesSubdirectories(dirs, "art\\a.frm", 1);
    DeleteMissesSubdirectories(dirs, "art/a.frm", 1);
  }

  /**
    With the user's path put in archive form, a stored name is found from
    either spelling, as stored or with forward slashes, where it is found by
    its own name.
  */
  lemma DeleteArchivePathFinds(dirs: seq<Directory>, name: string)
    requires '/' !in name
    ensures FirstDirWith(dirs, NormalizePathForArchive(name)) == FirstDirWith(dirs, name)
    ensures FirstDirWith(dirs, NormalizePathForArchive(NormalizeUserPath(name))) == FirstDirWith(dirs, name)
  {
    UserPathRoundTrip(name);
    assert NormalizePathForArchive(name) == name by {
      forall i | 0 <= i < |name| ensures NormalizePathForArchive(name)[i] == name[i] {
        assert name[i] in name;
      }
    }
  }

  /** `DeleteArchivePath` of `art\a.frm` or of `art/a.frm` finds the entry in `art`. */
  lemma DeleteArchivePathConcrete()
    ensures FirstDirWith(ArtArchive(), NormalizePathForArchive("art\\a.frm")) == Some(1)
    ensures FirstDirWith(ArtArchive(), NormalizePathForArchive("art/a.frm")) == Some(1)
  {
    var dirs := ArtArchive();
    assert '/' !in "art\\a.frm";
    DeleteArchivePathFinds(dirs, "art\\a.frm");
    assert NormalizeUserPath("art\\a.frm") == "art/a.frm";
    assert FindName(dirs[1].files, "art\\a.frm") == Some(0);
    FirstDirWithAt(dirs, "art\\a.frm", 1);
  }
}
