/**
  The order DAT2 keeps its file list in: names compared case-insensitively
  (`a.name.to_lowercase().cmp(&b.name.to_lowercase())`), sorted by the
  standard library's stable `sort_by`.

  `str::to_lowercase` follows the Unicode case tables, which are not part of
  this model: it is the parameter `lower` of every member here, and nothing
  below depends on what it does to a name. It may change a name's length.

  `str::cmp` compares the UTF-8 bytes, which orders strings exactly as
  comparing their characters does, so the order is stated on characters.
*/
module NameOrder {
  import opened Common

  /** `a.cmp(b) == Ordering::Less` on strings: lexicographic, a proper prefix first. */
  predicate Below(a: string, b: string)
    decreases |a|
  {
    if a == [] then b != []
    else if b == [] then false
    else a[0] < b[0] || (a[0] == b[0] && Below(a[1..], b[1..]))
  }

  /** The sort key of an entry: its lower-cased name. */
  function Key(lower: string -> string, e: FileEntry): string {
    lower(e.name)
  }

  /** `x` may stand before `y`: the comparator does not put `y` first. */
  predicate InOrder(lower: string -> string, x: FileEntry, y: FileEntry) {
    !Below(Key(lower, y), Key(lower, x))
  }

  predicate SortedByName(lower: string -> string, s: seq<FileEntry>) {
    forall i, j :: 0 <= i < j < |s| ==> InOrder(lower, s[i], s[j])
  }

  /**
    Stable insertion of `x`, which comes after everything in `s`: it goes in
    front of the first entry whose key is strictly greater.
  */
  function Insert(lower: string -> string, x: FileEntry, s: seq<FileEntry>): seq<FileEntry>
    decreases |s|
  {
    if s == [] then [x]
    else if Below(Key(lower, x), Key(lower, s[0])) then [x] + s
    else [s[0]] + Insert(lower, x, s[1..])
  }

  /**
    `Vec::sort_by` with the case-insensitive comparator. A stable sort's
    result is determined by its input, and this is the one insertion sort
    produces.
  */
  function SortByName(lower: string -> string, s: seq<FileEntry>): seq<FileEntry>
    decreases |s|
  {
    if s == [] then [] else Insert(lower, s[|s| - 1], SortByName(lower, s[..|s| - 1]))
  }

  // ---------------------------------------------------------------------------
  // The comparator is a strict total order
  // ---------------------------------------------------------------------------

  lemma {:induction false} BelowIrreflexive(a: string)
    ensures !Below(a, a)
    decreases |a|
  {
    if a != [] {
      BelowIrreflexive(a[1..]);
    }
  }

  lemma {:induction false} BelowTransitive(a: string, b: string, c: string)
    requires Below(a, b) && Below(b, c)
    ensures Below(a, c)
    decreases |a|
  {
    if a != [] && a[0] == b[0] && b[0] == c[0] {
      BelowTransitive(a[1..], b[1..], c[1..]);
    }
  }

  lemma {:induction false} BelowTotal(a: string, b: string)
    ensures a == b || Below(a, b) || Below(b, a)
    decreases |a|
  {
    if a != [] && b != [] && a[0] == b[0] {
      BelowTotal(a[1..], b[1..]);
      if a[1..] == b[1..] {
        assert a == [a[0]] + a[1..] && b == [b[0]] + b[1..];
      }
    }
  }

  lemma BelowAsymmetric(a: string, b: string)
    requires Below(a, b)
    ensures !Below(b, a)
  {
    if Below(b, a) {
      BelowTransitive(a, b, a);
      BelowIrreflexive(a);
    }
  }

  /** "May stand before" is transitive. */
  lemma InOrderTransitive(lower: string -> string, x: FileEntry, y: FileEntry, z: FileEntry)
    requires InOrder(lower, x, y) && InOrder(lower, y, z)
    ensures InOrder(lower, x, z)
  {
    if Below(Key(lower, z), Key(lower, x)) {
      BelowTotal(Key(lower, x), Key(lower, y));
      if Below(Key(lower, x), Key(lower, y)) {
        BelowTransitive(Key(lower, z), Key(lower, x), Key(lower, y));
      }
    }
  }

  /** Of two entries, at least one may stand before the other. */
  lemma InOrderTotal(lower: string -> string, x: FileEntry, y: FileEntry)
    ensures InOrder(lower, x, y) || InOrder(lower, y, x)
  {
    BelowTotal(Key(lower, x), Key(lower, y));
    if Key(lower, x) == Key(lower, y) {
      BelowIrreflexive(Key(lower, x));
    } else if Below(Key(lower, x), Key(lower, y)) && Below(Key(lower, y), Key(lower, x)) {
      BelowTransitive(Key(lower, x), Key(lower, y), Key(lower, x));
      BelowIrreflexive(Key(lower, x));
    }
  }

  /** Insertion adds `x` and loses nothing. */
  lemma {:induction false} InsertPermutes(lower: string -> string, x: FileEntry, s: seq<FileEntry>)
    ensures multiset(Insert(lower, x, s)) == multiset(s) + multiset{x}
    decreases |s|
  {
    if s != [] && !Below(Key(lower, x), Key(lower, s[0])) {
      InsertPermutes(lower, x, s[1..]);
      assert s == [s[0]] + s[1..];
    }
  }

  /** The sort keeps every entry, as often as it occurs. */
  lemma {:induction false} SortByNamePermutes(lower: string -> string, s: seq<FileEntry>)
    ensures multiset(SortByName(lower, s)) == multiset(s)
    decreases |s|
  {
    if s != [] {
      var init, last := s[..|s| - 1], s[|s| - 1];
      SortByNamePermutes(lower, init);
      InsertPermutes(lower, last, SortByName(lower, init));
      assert SortByName(lower, s) == Insert(lower, last, SortByName(lower, init));
      assert s == init + [last];
      assert multiset(s) == multiset(init) + multiset{last};
    }
  }

  // ---------------------------------------------------------------------------
  // The sort sorts, keeps every entry, and leaves a sorted list alone
  // ---------------------------------------------------------------------------

  lemma TailSorted(lower: string -> string, s: seq<FileEntry>)
    requires s != [] && SortedByName(lower, s)
    ensures SortedByName(lower, s[1..])
  {
    var tail := s[1..];
    forall i, j | 0 <= i < j < |tail| ensures InOrder(lower, tail[i], tail[j]) {
      assert tail[i] == s[i + 1] && tail[j] == s[j + 1];
    }
  }

  lemma ConsSorted(lower: string -> string, y: FileEntry, r: seq<FileEntry>)
    requires SortedByName(lower, r)
    requires forall k :: 0 <= k < |r| ==> InOrder(lower, y, r[k])
    ensures SortedByName(lower, [y] + r)
  {
    var c := [y] + r;
    forall i, j | 0 <= i < j < |c| ensures InOrder(lower, c[i], c[j]) {
      assert c[j] == r[j - 1];
      if i > 0 {
        assert c[i] == r[i - 1];
      }
    }
  }

  /** The head of a sorted list may stand before anything built from its tail and `x`. */
  lemma HeadFirst(lower: string -> string, x: FileEntry, s: seq<FileEntry>, rest: seq<FileEntry>)
    requires s != [] && SortedByName(lower, s) && InOrder(lower, s[0], x)
    requires multiset(rest) == multiset(s[1..]) + multiset{x}
    ensures forall k :: 0 <= k < |rest| ==> InOrder(lower, s[0], rest[k])
  {
    forall k | 0 <= k < |rest| ensures InOrder(lower, s[0], rest[k]) {
      assert rest[k] in multiset(rest);
      if rest[k] != x {
        assert rest[k] in multiset(s[1..]);
        var m :| 0 <= m < |s[1..]| && s[1..][m] == rest[k];
        assert s[1..][m] == s[m + 1];
      }
    }
  }

  lemma {:induction false} InsertSorted(lower: string -> string, x: FileEntry, s: seq<FileEntry>)
    requires SortedByName(lower, s)
    ensures SortedByName(lower, Insert(lower, x, s))
    decreases |s|
  {
    if s == [] {
    } else if Below(Key(lower, x), Key(lower, s[0])) {
      BelowAsymmetric(Key(lower, x), Key(lower, s[0]));
      forall k | 0 <= k < |s| ensures InOrder(lower, x, s[k]) {
        if k > 0 {
          InOrderTransitive(lower, x, s[0], s[k]);
        }
      }
      ConsSorted(lower, x, s);
    } else {
      TailSorted(lower, s);
      InsertSorted(lower, x, s[1..]);
      InsertPermutes(lower, x, s[1..]);
      var rest := Insert(lower, x, s[1..]);
      HeadFirst(lower, x, s, rest);
      ConsSorted(lower, s[0], rest);
    }
  }

  /** The file list after `add_file` is sorted by lower-cased name. */
  lemma {:induction false} SortByNameSorted(lower: string -> string, s: seq<FileEntry>)
    ensures SortedByName(lower, SortByName(lower, s))
    decreases |s|
  {
    if s != [] {
      SortByNameSorted(lower, s[..|s| - 1]);
      InsertSorted(lower, s[|s| - 1], SortByName(lower, s[..|s| - 1]));
    }
  }

  /** An entry no smaller than everything before it is appended. */
  lemma {:induction false} InsertLast(lower: string -> string, x: FileEntry, s: seq<FileEntry>)
    requires forall i :: 0 <= i < |s| ==> InOrder(lower, s[i], x)
    ensures Insert(lower, x, s) == s + [x]
    decreases |s|
  {
    if s != [] {
      assert !Below(Key(lower, x), Key(lower, s[0])) by {
        assert InOrder(lower, s[0], x);
      }
      forall i | 0 <= i < |s[1..]| ensures InOrder(lower, s[1..][i], x) {
        assert s[1..][i] == s[i + 1];
      }
      InsertLast(lower, x, s[1..]);
      assert Insert(lower, x, s) == [s[0]] + Insert(lower, x, s[1..]);
      assert [s[0]] + (s[1..] + [x]) == s + [x];
    }
  }

  /** Sorting a sorted list changes nothing: equal keys keep their order. */
  lemma {:induction false} SortSortedUnchanged(lower: string -> string, s: seq<FileEntry>)
    requires SortedByName(lower, s)
    ensures SortByName(lower, s) == s
    decreases |s|
  {
    if s != [] {
      var init := s[..|s| - 1];
      assert SortedByName(lower, init);
      SortSortedUnchanged(lower, init);
      InsertLast(lower, s[|s| - 1], init);
      assert init + [s[|s| - 1]] == s;
    }
  }

  // ---------------------------------------------------------------------------
  // The sort is stable: entries of one key keep their order
  // ---------------------------------------------------------------------------

  /** The entries of `s` whose key is `k`, in their order in `s`. */
  function OfKey(lower: string -> string, s: seq<FileEntry>, k: string): (r: seq<FileEntry>)
    ensures forall i :: 0 <= i < |r| ==> Key(lower, r[i]) == k
    ensures |r| <= |s|
    decreases |s|
  {
    if s == [] then []
    else (if Key(lower, s[0]) == k then [s[0]] else []) + OfKey(lower, s[1..], k)
  }

  lemma {:induction false} OfKeyAppend(lower: string -> string, a: seq<FileEntry>, b: seq<FileEntry>, k: string)
    ensures OfKey(lower, a + b, k) == OfKey(lower, a, k) + OfKey(lower, b, k)
    decreases |a|
  {
    if a == [] {
      assert a + b == b;
    } else {
      OfKeyAppend(lower, a[1..], b, k);
      assert (a + b)[0] == a[0] && (a + b)[1..] == a[1..] + b;
    }
  }

  /** A list whose keys are all above `k` holds no entry of key `k`. */
  lemma {:induction false} AboveNone(lower: string -> string, s: seq<FileEntry>, k: string)
    requires forall i :: 0 <= i < |s| ==> Below(k, Key(lower, s[i]))
    ensures OfKey(lower, s, k) == []
    decreases |s|
  {
    if s != [] {
      BelowIrreflexive(k);
      assert forall i :: 0 <= i < |s[1..]| ==> s[1..][i] == s[i + 1];
      AboveNone(lower, s[1..], k);
    }
  }

  /** Inserting an entry of another key leaves the entries of key `k` as they were. */
  lemma {:induction false} InsertOtherKey(lower: string -> string, x: FileEntry, s: seq<FileEntry>, k: string)
    requires Key(lower, x) != k
    ensures OfKey(lower, Insert(lower, x, s), k) == OfKey(lower, s, k)
    decreases |s|
  {
    if s == [] {
      assert OfKey(lower, [x], k) == [] + OfKey(lower, [], k);
    } else if Below(Key(lower, x), Key(lower, s[0])) {
      assert ([x] + s)[1..] == s;
    } else {
      var rest := Insert(lower, x, s[1..]);
      InsertOtherKey(lower, x, s[1..], k);
      assert ([s[0]] + rest)[0] == s[0] && ([s[0]] + rest)[1..] == rest;
    }
  }

  /** In a sorted list, an inserted entry goes after every entry of its own key. */
  lemma {:induction false} InsertSameKey(lower: string -> string, x: FileEntry, s: seq<FileEntry>)
    requires SortedByName(lower, s)
    ensures OfKey(lower, Insert(lower, x, s), Key(lower, x)) == OfKey(lower, s, Key(lower, x)) + [x]
    decreases |s|
  {
    var k := Key(lower, x);
    if s == [] {
      assert OfKey(lower, [x], k) == [x] + OfKey(lower, [], k);
    } else if Below(k, Key(lower, s[0])) {
      forall i | 0 <= i < |s| ensures Below(k, Key(lower, s[i])) {
        if i > 0 {
          assert InOrder(lower, s[0], s[i]);
          BelowTotal(Key(lower, s[0]), Key(lower, s[i]));
          if Key(lower, s[0]) != Key(lower, s[i]) {
            BelowTransitive(k, Key(lower, s[0]), Key(lower, s[i]));
          }
        }
      }
      AboveNone(lower, s, k);
      assert ([x] + s)[0] == x && ([x] + s)[1..] == s;
    } else {
      var rest := Insert(lower, x, s[1..]);
      TailSorted(lower, s);
      InsertSameKey(lower, x, s[1..]);
      assert ([s[0]] + rest)[0] == s[0] && ([s[0]] + rest)[1..] == rest;
    }
  }

  /**
    `sort_by` is stable: the entries of any one key, `A.txt` and `a.txt`
    say, come out in the order they went in.
  */
  lemma {:induction false} SortByNameStable(lower: string -> string, s: seq<FileEntry>, k: string)
    ensures OfKey(lower, SortByName(lower, s), k) == OfKey(lower, s, k)
    decreases |s|
  {
    if s != [] {
      var init, last := s[..|s| - 1], s[|s| - 1];
      SortByNameStable(lower, init, k);
      assert init + [last] == s;
      OfKeyAppend(lower, init, [last], k);
      assert OfKey(lower, [last], k) == (if Key(lower, last) == k then [last] else []) + OfKey(lower, [], k);
      if Key(lower, last) == k {
        SortByNameSorted(lower, init);
        InsertSameKey(lower, last, SortByName(lower, init));
      } else {
        InsertOtherKey(lower, last, SortByName(lower, init), k);
      }
    }
  }

  /**
    The folding is `lower`'s, not only A to Z: where `É` folds to `é`,
    `Éz` sorts after `éa`.
  */
  lemma FoldedNonAscii(lower: string -> string, x: FileEntry, y: FileEntry)
    requires x.name == "\U{E9}a" && y.name == "\U{C9}z"
    requires lower(x.name) == "\U{E9}a" && lower(y.name) == "\U{E9}z"
    ensures SortByName(lower, [y, x]) == [x, y]
  {
    assert [y, x][..1] == [y] && [y][..0] == [];
    assert SortByName(lower, [y]) == [y];
    assert Below(Key(lower, x), Key(lower, y)) by {
      assert Key(lower, x)[1..] == "a" && Key(lower, y)[1..] == "z";
    }
  }
}
