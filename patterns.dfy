/**
  `filter_and_track_patterns`: the filter behind `list` and `extract`. It keeps
  the items some pattern matches, in their original order and each once, and
  reports the patterns that were never marked as found.

  The loop marks a pattern found only when it is the FIRST pattern an item
  matches (the `break` that stops an item being listed twice also stops the
  marking), so a pattern whose every match was already taken by an earlier
  pattern is reported missing. `FilterAndTrackPatterns` models the code as
  written; `FilterAndTrackAllPatterns` marks every matching pattern, which is
  what the reported list is meant to say, and `MissingAfterEarlierMatch`
  exhibits an input on which the two differ.
*/
module Patterns {
  import opened Wrappers
  import opened Common

  /** The index at which the inner loop breaks for `item`, if it does. */
  function FirstMatch<T>(item: T, patterns: seq<string>, matches: (T, string) -> bool): (r: Option<nat>)
    ensures r.Some? ==> r.value < |patterns| && matches(item, patterns[r.value])
    ensures r.Some? ==> forall j :: 0 <= j < r.value ==> !matches(item, patterns[j])
    ensures r.None? ==> forall j :: 0 <= j < |patterns| ==> !matches(item, patterns[j])
    decreases |patterns|
  {
    if patterns == [] then None
    else if matches(item, patterns[0]) then Some(0)
    else
      var rest := FirstMatch(item, patterns[1..], matches);
      if rest.Some? then Some(rest.value + 1) else None
  }

  /** The items of `prefix` some pattern matches, in order. */
  function Matching<T>(prefix: seq<T>, patterns: seq<string>, matches: (T, string) -> bool): seq<T>
    decreases |prefix|
  {
    if prefix == [] then []
    else
      var last := prefix[|prefix| - 1];
      Matching(prefix[..|prefix| - 1], patterns, matches)
        + (if FirstMatch(last, patterns, matches).Some? then [last] else [])
  }

  /** The first result: every item when there are no patterns. */
  function FilteredItems<T>(items: seq<T>, patterns: seq<string>, matches: (T, string) -> bool): seq<T> {
    if patterns == [] then items else Matching(items, patterns, matches)
  }

  /** `patterns_found` as the loop leaves it after `prefix`: each item marks its first match only. */
  function FirstMatchesFound<T>(prefix: seq<T>, patterns: seq<string>, matches: (T, string) -> bool): (f: seq<bool>)
    ensures |f| == |patterns|
    decreases |prefix|
  {
    if prefix == [] then seq(|patterns|, _ => false)
    else
      var f := FirstMatchesFound(prefix[..|prefix| - 1], patterns, matches);
      var m := FirstMatch(prefix[|prefix| - 1], patterns, matches);
      if m.Some? then f[m.value := true] else f
  }

  /** `patterns_found` with every matching pattern marked. */
  function AllMatchesFound<T>(prefix: seq<T>, patterns: seq<string>, matches: (T, string) -> bool): (f: seq<bool>)
    ensures |f| == |patterns|
    decreases |prefix|
  {
    if prefix == [] then seq(|patterns|, _ => false)
    else
      var f := AllMatchesFound(prefix[..|prefix| - 1], patterns, matches);
      var last := prefix[|prefix| - 1];
      seq(|patterns|, j requires 0 <= j < |patterns| => f[j] || matches(last, patterns[j]))
  }

  /** The `filter_map` that collects the patterns not marked found. */
  function Unfound(patterns: seq<string>, found: seq<bool>): seq<string>
    requires |found| == |patterns|
    decreases |patterns|
  {
    if patterns == [] then []
    else
      Unfound(patterns[..|patterns| - 1], found[..|found| - 1])
        + (if found[|found| - 1] then [] else [patterns[|patterns| - 1]])
  }

  /** `filter_and_track_patterns` as written. */
  method FilterAndTrackPatterns<T>(items: seq<T>, patterns: seq<string>, matches: (T, string) -> bool)
    returns (filtered: seq<T>, missing: seq<string>)
    ensures filtered == FilteredItems(items, patterns, matches)
    ensures missing == if patterns == [] then [] else Unfound(patterns, FirstMatchesFound(items, patterns, matches))
  {
    if |patterns| == 0 {
      return items, [];
    }
    var patternsFound := new bool[|patterns|](_ => false);
    filtered := [];
    for i := 0 to |items|
      invariant patternsFound[..] == FirstMatchesFound(items[..i], patterns, matches)
      invariant filtered == Matching(items[..i], patterns, matches)
    {
      var item := items[i];
      assert items[..i + 1][..i] == items[..i] && items[..i + 1][i] == item;
      for idx := 0 to |patterns|
        invariant patternsFound[..] == FirstMatchesFound(items[..i], patterns, matches)
        invariant filtered == Matching(items[..i], patterns, matches)
        invariant forall j :: 0 <= j < idx ==> !matches(item, patterns[j])
      {
        if matches(item, patterns[idx]) {
          NoEarlierMatch(item, patterns, matches, idx);
          patternsFound[idx] := true;
          filtered := filtered + [item];
          break;
        }
      }
    }
    assert items[..|items|] == items;
    missing := Unfound(patterns, patternsFound[..]);
  }

  /** `filter_and_track_patterns` with every matching pattern marked found. */
  method FilterAndTrackAllPatterns<T>(items: seq<T>, patterns: seq<string>, matches: (T, string) -> bool)
    returns (filtered: seq<T>, missing: seq<string>)
    ensures filtered == FilteredItems(items, patterns, matches)
    ensures missing == if patterns == [] then [] else Unfound(patterns, AllMatchesFound(items, patterns, matches))
  {
    if |patterns| == 0 {
      return items, [];
    }
    var patternsFound := new bool[|patterns|](_ => false);
    filtered := [];
    for i := 0 to |items|
      invariant patternsFound[..] == AllMatchesFound(items[..i], patterns, matches)
      invariant filtered == Matching(items[..i], patterns, matches)
    {
      var item := items[i];
      assert items[..i + 1][..i] == items[..i] && items[..i + 1][i] == item;
      ghost var before := patternsFound[..];
      var matched := false;
      for idx := 0 to |patterns|
        invariant forall j :: 0 <= j < idx ==> patternsFound[j] == (before[j] || matches(item, patterns[j]))
        invariant forall j :: idx <= j < |patterns| ==> patternsFound[j] == before[j]
        invariant matched <==> exists j :: 0 <= j < idx && matches(item, patterns[j])
      {
        if matches(item, patterns[idx]) {
          patternsFound[idx] := true;
          matched := true;
        }
      }
      assert matched <==> FirstMatch(item, patterns, matches).Some?;
      if matched {
        filtered := filtered + [item];
      }
    }
    assert items[..|items|] == items;
    missing := Unfound(patterns, patternsFound[..]);
  }

  lemma NoEarlierMatch<T>(item: T, patterns: seq<string>, matches: (T, string) -> bool, idx: nat)
    requires idx < |patterns| && matches(item, patterns[idx])
    requires forall j :: 0 <= j < idx ==> !matches(item, patterns[j])
    ensures FirstMatch(item, patterns, matches) == Some(idx)
  {
  }

  // ---------------------------------------------------------------------------
  // What the results mean
  // ---------------------------------------------------------------------------

  /** The listed items are exactly those some pattern matches, each once and in order. */
  lemma {:induction false} MatchingMembers<T>(prefix: seq<T>, patterns: seq<string>, matches: (T, string) -> bool)
    ensures |Matching(prefix, patterns, matches)| <= |prefix|
    ensures forall x :: x in Matching(prefix, patterns, matches) <==>
              x in prefix && exists j :: 0 <= j < |patterns| && matches(x, patterns[j])
    decreases |prefix|
  {
    if prefix != [] {
      var init := prefix[..|prefix| - 1];
      var last := prefix[|prefix| - 1];
      MatchingMembers(init, patterns, matches);
      assert prefix == init + [last];
      var m := FirstMatch(last, patterns, matches);
      forall x ensures x in Matching(prefix, patterns, matches) <==>
                         x in prefix && exists j :: 0 <= j < |patterns| && matches(x, patterns[j]) {
        if x == last && m.None? {
          assert !exists j :: 0 <= j < |patterns| && matches(x, patterns[j]);
        }
      }
    }
  }

  /** The filter keeps the order of `items`: each listed item follows those listed before it. */
  lemma {:induction false} MatchingIsSubsequence<T>(prefix: seq<T>, patterns: seq<string>, matches: (T, string) -> bool)
    ensures forall k :: 0 <= k < |prefix| && FirstMatch(prefix[k], patterns, matches).Some? ==>
              Matching(prefix[..k], patterns, matches) + [prefix[k]] <= Matching(prefix, patterns, matches)
    decreases |prefix|
  {
    if prefix != [] {
      var n := |prefix| - 1;
      var init := prefix[..n];
      MatchingIsSubsequence(init, patterns, matches);
      forall k | 0 <= k < |prefix| && FirstMatch(prefix[k], patterns, matches).Some?
        ensures Matching(prefix[..k], patterns, matches) + [prefix[k]] <= Matching(prefix, patterns, matches)
      {
        if k < n {
          assert init[k] == prefix[k] && init[..k] == prefix[..k];
        } else {
          assert prefix[..k] == init;
        }
      }
    }
  }

  /** As written, pattern `j` is found only when it is the first match of some item. */
  lemma {:induction false} FirstMatchesFoundMeans<T>(prefix: seq<T>, patterns: seq<string>, matches: (T, string) -> bool, j: nat)
    requires j < |patterns|
    ensures FirstMatchesFound(prefix, patterns, matches)[j] <==>
            exists k :: 0 <= k < |prefix| && FirstMatch(prefix[k], patterns, matches) == Some(j)
    decreases |prefix|
  {
    if prefix != [] {
      var n := |prefix| - 1;
      FirstMatchesFoundMeans(prefix[..n], patterns, matches, j);
      if FirstMatchesFound(prefix, patterns, matches)[j] && !FirstMatchesFound(prefix[..n], patterns, matches)[j] {
        assert FirstMatch(prefix[n], patterns, matches) == Some(j);
      }
      forall k | 0 <= k < n ensures prefix[..n][k] == prefix[k] { }
    }
  }

  /** Marking every match, pattern `j` is found exactly when some item matches it. */
  lemma {:induction false} AllMatchesFoundMeans<T>(prefix: seq<T>, patterns: seq<string>, matches: (T, string) -> bool, j: nat)
    requires j < |patterns|
    ensures AllMatchesFound(prefix, patterns, matches)[j] <==>
            exists k :: 0 <= k < |prefix| && matches(prefix[k], patterns[j])
    decreases |prefix|
  {
    if prefix != [] {
      var n := |prefix| - 1;
      AllMatchesFoundMeans(prefix[..n], patterns, matches, j);
      forall k | 0 <= k < n ensures prefix[..n][k] == prefix[k] { }
    }
  }

  /** The reported patterns are those, and only those, not marked found, in order. */
  lemma {:induction false} UnfoundMembers(patterns: seq<string>, found: seq<bool>)
    requires |found| == |patterns|
    ensures forall p :: p in Unfound(patterns, found) <==>
              exists j :: 0 <= j < |patterns| && patterns[j] == p && !found[j]
    decreases |patterns|
  {
    if patterns != [] {
      var n := |patterns| - 1;
      UnfoundMembers(patterns[..n], found[..n]);
      forall p ensures p in Unfound(patterns, found) <==>
                         exists j :: 0 <= j < |patterns| && patterns[j] == p && !found[j] {
        if exists j :: 0 <= j < |patterns| && patterns[j] == p && !found[j] {
          var j :| 0 <= j < |patterns| && patterns[j] == p && !found[j];
          if j < n {
            assert patterns[..n][j] == p && !found[..n][j];
          }
        }
        if exists j :: 0 <= j < n && patterns[..n][j] == p && !found[..n][j] {
          var j :| 0 <= j < n && patterns[..n][j] == p && !found[..n][j];
          assert patterns[j] == p && !found[j];
        }
      }
    }
  }

  /**
    With every match marked, a pattern is reported missing exactly when no item
    matches it.
  */
  lemma AllPatternsMissingIff<T>(items: seq<T>, patterns: seq<string>, matches: (T, string) -> bool, p: string)
    requires patterns != []
    ensures p in Unfound(patterns, AllMatchesFound(items, patterns, matches)) <==>
            p in patterns && forall k :: 0 <= k < |items| ==> !matches(items[k], p)
  {
    var found := AllMatchesFound(items, patterns, matches);
    UnfoundMembers(patterns, found);
    if p in patterns && forall k :: 0 <= k < |items| ==> !matches(items[k], p) {
      var j :| 0 <= j < |patterns| && patterns[j] == p;
      AllMatchesFoundMeans(items, patterns, matches, j);
    }
    if p in Unfound(patterns, found) {
      var j :| 0 <= j < |patterns| && patterns[j] == p && !found[j];
      AllMatchesFoundMeans(items, patterns, matches, j);
    }
  }

  /** As written, a pattern every item of which is matched first by an earlier pattern counts as missing. */
  lemma FirstPatternsMissingIff<T>(items: seq<T>, patterns: seq<string>, matches: (T, string) -> bool, p: string)
    requires patterns != []
    ensures p in Unfound(patterns, FirstMatchesFound(items, patterns, matches)) <==>
            exists j :: 0 <= j < |patterns| && patterns[j] == p &&
              forall k :: 0 <= k < |items| ==> FirstMatch(items[k], patterns, matches) != Some(j)
  {
    var found := FirstMatchesFound(items, patterns, matches);
    UnfoundMembers(patterns, found);
    forall j | 0 <= j < |patterns| {
      FirstMatchesFoundMeans(items, patterns, matches, j);
    }
  }

  /**
    `list ab` with the patterns "a" and "b": the file `ab` is listed, yet "b",
    which it contains, is reported as not found, and the command fails.
  */
  lemma MissingAfterEarlierMatch()
    ensures var matcher := (name: string, pattern: string) => Contains(name, pattern);
            && Contains("ab", "b")
            && FilteredItems(["ab"], ["a", "b"], matcher) == ["ab"]
            && Unfound(["a", "b"], FirstMatchesFound(["ab"], ["a", "b"], matcher)) == ["b"]
            && Unfound(["a", "b"], AllMatchesFound(["ab"], ["a", "b"], matcher)) == []
  {
    var matcher := (name: string, pattern: string) => Contains(name, pattern);
    var items: seq<string> := ["ab"];
    var patterns: seq<string> := ["a", "b"];
    assert OccursAt("ab", "a", 0);
    assert OccursAt("ab", "b", 1);
    assert FirstMatch("ab", patterns, matcher) == Some(0);
    assert items[..0] == [];
    var first := FirstMatchesFound(items, patterns, matcher);
    assert first == [true, false];
    assert patterns[..1] == ["a"] && first[..1] == [true];
    var all := AllMatchesFound(items, patterns, matcher);
    assert all == [true, true];
    assert all[..1] == [true];
  }
}
