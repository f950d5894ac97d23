/** How both filter-chip widgets clean the option list they are given: empty strings are
    dropped and duplicates removed, keeping first occurrences in input order. The multi-select
    group de-duplicates first and then deletes empties; the single-select chip deletes first
    and then de-duplicates. The two orders give the same list. */
module WidgetOptions {
  import opened Slices

  /** The deletion predicate both widgets pass to `sliceDeleteFunc`. */
  predicate IsEmptyString(s: string)
  {
    s == ""
  }

  /** `sliceDeleteFunc(sliceDeduplicate(options), isEmpty)`, as the multi-select group does. */
  function GroupCleaned(options: seq<string>): (r: seq<string>)
    ensures "" !in r
    ensures NoDuplicates(r)
    ensures forall x :: x in r <==> x in options && x != ""
  {
    KeptNoDuplicates(Dedup(options), IsEmptyString);
    Kept(Dedup(options), IsEmptyString)
  }

  /** `sliceDeduplicate(sliceDeleteFunc(options, isEmpty))`, as the single-select chip does. */
  function SelectCleaned(options: seq<string>): (r: seq<string>)
    ensures "" !in r
    ensures NoDuplicates(r)
    ensures forall x :: x in r <==> x in options && x != ""
  {
    Dedup(Kept(options, IsEmptyString))
  }

  /** The multi-select group's cleaning, with the two Go loops. */
  method CleanForGroup(options: seq<string>) returns (r: seq<string>)
    ensures r == GroupCleaned(options)
  {
    var deduplicated := Deduplicate(options);
    r := DeleteFunc(deduplicated, IsEmptyString);
  }

  /** The single-select chip's cleaning, `setOptions`, with the two Go loops. */
  method CleanForSelect(options: seq<string>) returns (r: seq<string>)
    ensures r == SelectCleaned(options)
  {
    var kept := DeleteFunc(options, IsEmptyString);
    r := Deduplicate(kept);
  }

  /** Both widgets clean an option list to the same result. */
  lemma CleaningOrderIrrelevant(options: seq<string>)
    ensures SelectCleaned(options) == GroupCleaned(options)
  {
    DedupKeptCommute(options, IsEmptyString);
  }

  /** The cleaned options appear in the order of their first occurrence in the input. */
  lemma {:induction false} CleanedKeepsFirstOccurrenceOrder(options: seq<string>)
    ensures forall i, j :: 0 <= i < j < |GroupCleaned(options)| ==>
              FirstIndex(options, GroupCleaned(options)[i]) < FirstIndex(options, GroupCleaned(options)[j])
  {
    if options != [] {
      var p, y := options[..|options| - 1], options[|options| - 1];
      assert options == p + [y];
      CleanedKeepsFirstOccurrenceOrder(p);
      CleanedAppend(p, y);
      FirstOccurrenceOrderGrows(p, y, GroupCleaned(p), GroupCleaned(options));
    }
  }

  /** Cleaning a list that grew by one value. */
  lemma CleanedAppend(p: seq<string>, y: string)
    ensures GroupCleaned(p + [y]) == if y in p || y == "" then GroupCleaned(p) else GroupCleaned(p) + [y]
  {
    DedupAppend(p, y);
    if y !in p {
      KeptAppend(Dedup(p), y, IsEmptyString);
    }
  }

  /** Options that are already clean are kept exactly. */
  lemma CleanOptionsUnchanged(options: seq<string>)
    requires NoDuplicates(options) && "" !in options
    ensures GroupCleaned(options) == options
  {
    DedupIdentity(options);
    KeptNothing(options);
  }

  lemma {:induction false} KeptNothing(s: seq<string>)
    requires "" !in s
    ensures Kept(s, IsEmptyString) == s
  {
    if s != [] {
      KeptNothing(s[..|s| - 1]);
      assert s[..|s| - 1] + [s[|s| - 1]] == s;
    }
  }
}
