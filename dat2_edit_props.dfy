/**
  What DAT2's list edits promise: after `add_file` the list is sorted by
  lower-cased name, every name the batch brings is held by exactly the
  batch's first entry of that name, and every other entry is kept as often as
  it was; `delete_file` removes exactly the first entry of the name it looks
  for. Also the case `delete_file` misses: a name stored with backslashes.
*/
module Dat2EditProps {
  import opened Wrappers
  import opened Common
  import opened NameOrder
  import opened Dat2

  /** `e` is the first entry of its name in `entries`. */
  predicate FirstOf(entries: seq<FileEntry>, e: FileEntry) {
    var p := FindName(entries, e.name);
    p.Some? && entries[p.value] == e
  }

  lemma FindNameInNames(entries: seq<FileEntry>, name: string)
    ensures FindName(entries, name).Some? <==> name in Names(entries)
  {
  }

  /**
    The batch loop of `add_file` keeps, of every name not yet seen, exactly the
    first entry of that name.
  */
  lemma {:induction false} FirstOfEachNameCounts(entries: seq<FileEntry>, seen: set<string>, e: FileEntry)
    ensures multiset(FirstOfEachName(entries, seen))[e]
         == if e.name !in seen && FirstOf(entries, e) then 1 else 0
    decreases |entries|
  {
    if entries != [] {
      var x, rest := entries[0], entries[1..];
      if x.name in seen {
        FirstOfEachNameCounts(rest, seen, e);
        if e.name !in seen {
          assert FirstOf(entries, e) == FirstOf(rest, e) by {
            ShiftFirstOf(entries, e);
          }
        }
      } else {
        FirstOfEachNameCounts(rest, seen + {x.name}, e);
        assert FirstOfEachName(entries, seen) == [x] + FirstOfEachName(rest, seen + {x.name});
        if e.name == x.name {
          assert FindName(entries, e.name) == Some(0);
        } else if e.name !in seen {
          assert e != x;
          assert FirstOf(entries, e) == FirstOf(rest, e) by {
            ShiftFirstOf(entries, e);
          }
        }
      }
    }
  }

  /** Past a first entry of another name, the first entry of `e`'s name is the same one. */
  lemma ShiftFirstOf(entries: seq<FileEntry>, e: FileEntry)
    requires entries != [] && entries[0].name != e.name
    ensures FirstOf(entries, e) == FirstOf(entries[1..], e)
  {
    var p := FindName(entries[1..], e.name);
    if p.Some? {
      assert entries[p.value + 1] == entries[1..][p.value];
    }
  }

  /**
    `add_file`'s list update: an entry whose name the batch brings is there
    once when it is the batch's first of that name and not at all otherwise;
    every other entry is there as often as before.
  */
  lemma MergedCounts(lower: string -> string, files: seq<FileEntry>, added: seq<FileEntry>, e: FileEntry)
    ensures multiset(Merged(lower, files, added))[e]
         == if e.name in Names(added) then (if FirstOf(added, e) then 1 else 0) else multiset(files)[e]
  {
    SortByNamePermutes(lower, Retained(files, Names(added)) + FirstOfEachName(added, {}));
    FirstOfEachNameCounts(added, {}, e);
    FindNameInNames(added, e.name);
  }

  /** After `add_file` the list is sorted by lower-cased name. */
  lemma MergedSorted(lower: string -> string, files: seq<FileEntry>, added: seq<FileEntry>)
    ensures SortedByName(lower, Merged(lower, files, added))
  {
    SortByNameSorted(lower, Retained(files, Names(added)) + FirstOfEachName(added, {}));
  }

  /**
    Entries whose lower-cased names are equal keep, through `add_file`, the
    order they have in the kept list followed by the batch's first entries.
  */
  lemma MergedStable(lower: string -> string, files: seq<FileEntry>, added: seq<FileEntry>, k: string)
    ensures OfKey(lower, Merged(lower, files, added), k)
         == OfKey(lower, Retained(files, Names(added)), k) + OfKey(lower, FirstOfEachName(added, {}), k)
  {
    SortByNameStable(lower, Retained(files, Names(added)) + FirstOfEachName(added, {}), k);
    OfKeyAppend(lower, Retained(files, Names(added)), FirstOfEachName(added, {}), k);
  }

  /**
    `delete_file` finds nothing for a stored name that holds a backslash,
    whatever the user types: the user's path is put in forward-slash form.
  */
  lemma DeleteMissesBackslashNames(files: seq<FileEntry>, input: string, k: nat)
    requires k < |files| && '\\' in files[k].name
    ensures FindName(files, NormalizeUserPath(input)) != Some(k)
  {
    UserPathNeverMatches(input, files[k].name);
  }

  /** A one-entry archive whose name is `art\a.frm`: deleting `art\a.frm` or `art/a.frm` finds nothing. */
  lemma DeleteMissesConcrete()
    ensures var files := [FileEntry("art\\a.frm", 0, 0, 0, false, None)];
            && FindName(files, NormalizeUserPath("art\\a.frm")).None?
            && FindName(files, NormalizeUserPath("art/a.frm")).None?
  {
    var files := [FileEntry("art\\a.frm", 0, 0, 0, false, None)];
    DeleteMissesBackslashNames(files, "art\\a.frm", 0);
    DeleteMissesBackslashNames(files, "art/a.frm", 0);
  }

  /**
    With the user's path put in archive form, the stored name is found from
    either spelling: as stored, or with forward slashes.
  */
  lemma DeleteArchivePathFinds(files: seq<FileEntry>, k: nat)
    requires k < |files| && '/' !in files[k].name
    requires FindName(files, files[k].name) == Some(k)
    ensures FindName(files, NormalizePathForArchive(files[k].name)) == Some(k)
    ensures FindName(files, NormalizePathForArchive(NormalizeUserPath(files[k].name))) == Some(k)
  {
    var name := files[k].name;
    UserPathRoundTrip(name);
    assert NormalizePathForArchive(name) == name by {
      forall i | 0 <= i < |name| ensures NormalizePathForArchive(name)[i] == name[i] {
        assert name[i] in name;
      }
    }
  }
}
