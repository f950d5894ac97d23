/** The slice helpers that every option list is cleaned with: de-duplication that keeps the
    first occurrence, deletion by a predicate, cloning and membership. Each Go helper builds a
    fresh result and never changes its input; here each one is a method with the Go loop,
    proved against a specification function whose properties are lemmas. */
module Slices {

  predicate NoDuplicates<E(==)>(s: seq<E>)
  {
    forall i, j :: 0 <= i < j < |s| ==> s[i] != s[j]
  }

  /** A Go `map[E]bool` read with a missing key reading as `false`. */
  predicate Lookup<E(==)>(m: map<E, bool>, k: E)
  {
    k in m && m[k]
  }

  /** `r` can be obtained from `s` by deleting elements (the order of what is kept is `s`'s). */
  predicate IsSubsequence<E(==)>(r: seq<E>, s: seq<E>)
    decreases |s|
  {
    if r == [] then true
    else if s == [] then false
    else if r[|r| - 1] == s[|s| - 1] then IsSubsequence(r[..|r| - 1], s[..|s| - 1])
    else IsSubsequence(r, s[..|s| - 1])
  }

  lemma {:induction false} SubsequenceDropLast<E>(r: seq<E>, s: seq<E>)
    requires r != [] && IsSubsequence(r, s)
    ensures IsSubsequence(r[..|r| - 1], s)
    decreases |s|, 0
  {
    if r[|r| - 1] == s[|s| - 1] {
      SubsequenceExtend(r[..|r| - 1], s[..|s| - 1], s[|s| - 1]);
      assert s[..|s| - 1] + [s[|s| - 1]] == s;
    } else {
      SubsequenceDropLast(r, s[..|s| - 1]);
      SubsequenceExtend(r[..|r| - 1], s[..|s| - 1], s[|s| - 1]);
      assert s[..|s| - 1] + [s[|s| - 1]] == s;
    }
  }

  /** Appending to the larger sequence keeps a subsequence a subsequence. */
  lemma {:induction false} SubsequenceExtend<E>(r: seq<E>, s: seq<E>, y: E)
    requires IsSubsequence(r, s)
    ensures IsSubsequence(r, s + [y])
    decreases |s|, 1
  {
    var t := s + [y];
    assert t[..|t| - 1] == s;
    if r != [] && r[|r| - 1] == y {
      SubsequenceDropLast(r, s);
    }
  }

  lemma {:induction false} SubsequenceReflexive<E>(s: seq<E>)
    ensures IsSubsequence(s, s)
  {
    if s != [] {
      SubsequenceReflexive(s[..|s| - 1]);
    }
  }

  /** Index of the first occurrence of `x` in `s`. */
  function FirstIndex<E(==)>(s: seq<E>, x: E): (k: nat)
    requires x in s
    ensures k < |s| && s[k] == x && x !in s[..k]
  {
    if s[0] == x then 0
    else
      var k := FirstIndex(s[1..], x);
      assert s[..k + 1] == [s[0]] + s[1..][..k];
      k + 1
  }

  lemma FirstIndexUnique<E>(s: seq<E>, x: E, k: nat)
    requires k < |s| && s[k] == x && x !in s[..k]
    ensures FirstIndex(s, x) == k
  {
  }

  /** Values already present keep their first index when the sequence grows at the end. */
  lemma FirstIndexAppend<E>(s: seq<E>, y: E, x: E)
    requires x in s
    ensures FirstIndex(s + [y], x) == FirstIndex(s, x)
  {
    var k := FirstIndex(s, x);
    assert (s + [y])[..k] == s[..k];
    FirstIndexUnique(s + [y], x, k);
  }

  /** Values listed in the order of their first occurrence in `p` stay so in `p + [y]`, also
      when `y` is new to `p` and joins them at the end. */
  lemma FirstOccurrenceOrderGrows<E>(p: seq<E>, y: E, c: seq<E>, r: seq<E>)
    requires forall x :: x in c ==> x in p
    requires forall i, j :: 0 <= i < j < |c| ==> FirstIndex(p, c[i]) < FirstIndex(p, c[j])
    requires r == c || (r == c + [y] && y !in p)
    ensures forall i, j :: 0 <= i < j < |r| ==> FirstIndex(p + [y], r[i]) < FirstIndex(p + [y], r[j])
  {
    forall x | x in c ensures FirstIndex(p + [y], x) == FirstIndex(p, x) < |p| {
      FirstIndexAppend(p, y, x);
    }
    if r != c {
      FirstIndexUnique(p + [y], y, |p|);
    }
  }

  // -------------------------------------------------------------------------
  // sliceDeduplicate

  /** The values of `s`, each at its first occurrence, in input order. */
  function Dedup<E(==)>(s: seq<E>): (r: seq<E>)
    ensures NoDuplicates(r)
    ensures forall i :: 0 <= i < |r| ==> r[i] in s
    ensures forall i :: 0 <= i < |s| ==> s[i] in r
    ensures |r| <= |s|
  {
    if s == [] then []
    else
      var p := s[..|s| - 1];
      if s[|s| - 1] in p then Dedup(p) else Dedup(p) + [s[|s| - 1]]
  }

  /** Every value keeps its first occurrence: the output lists values in the order in which
      they first appear in the input. */
  lemma {:induction false} DedupKeepsFirstOccurrenceOrder<E>(s: seq<E>)
    ensures forall i, j :: 0 <= i < j < |Dedup(s)| ==>
              FirstIndex(s, Dedup(s)[i]) < FirstIndex(s, Dedup(s)[j])
  {
    if s != [] {
      var p, y := s[..|s| - 1], s[|s| - 1];
      assert s == p + [y];
      DedupKeepsFirstOccurrenceOrder(p);
      FirstOccurrenceOrderGrows(p, y, Dedup(p), Dedup(s));
    }
  }

  lemma {:induction false} DedupIsSubsequence<E>(s: seq<E>)
    ensures IsSubsequence(Dedup(s), s)
  {
    if s != [] {
      var p, y := s[..|s| - 1], s[|s| - 1];
      assert s == p + [y];
      DedupIsSubsequence(p);
      if y in p {
        assert Dedup(s) == Dedup(p);
        SubsequenceExtend(Dedup(p), p, y);
      } else {
        var r := Dedup(p) + [y];
        assert Dedup(s) == r;
        assert r[..|r| - 1] == Dedup(p) && r[|r| - 1] == y;
      }
    }
  }

  /** On a duplicate-free input de-duplication changes nothing (in particular `[]` maps to `[]`). */
  lemma {:induction false} DedupIdentity<E>(s: seq<E>)
    requires NoDuplicates(s)
    ensures Dedup(s) == s
  {
    if s != [] {
      var p := s[..|s| - 1];
      assert NoDuplicates(p);
      DedupIdentity(p);
      assert s[|s| - 1] !in p;
      assert p + [s[|s| - 1]] == s;
    }
  }

  /** `sliceDeduplicate`: the Go loop with its `seen` map. */
  method Deduplicate<E(==)>(s: seq<E>) returns (r: seq<E>)
    ensures r == Dedup(s)
  {
    var seen: map<E, bool> := map[];
    r := [];
    var i := 0;
    while i < |s|
      invariant 0 <= i <= |s|
      invariant r == Dedup(s[..i])
      invariant forall x :: Lookup(seen, x) <==> x in s[..i]
    {
      var v := s[i];
      assert s[..i + 1] == s[..i] + [v];
      if Lookup(seen, v) {
        i := i + 1;
        continue;
      }
      r := r + [v];
      seen := seen[v := true];
      i := i + 1;
    }
    assert s[..i] == s;
  }

  // -------------------------------------------------------------------------
  // sliceDeleteFunc

  /** The elements of `s` for which `delete` is false, in their original order. */
  function Kept<E(==)>(s: seq<E>, delete: E -> bool): (r: seq<E>)
    ensures |r| <= |s|
    ensures forall i :: 0 <= i < |r| ==> r[i] in s && !delete(r[i])
    ensures forall i :: 0 <= i < |s| && !delete(s[i]) ==> s[i] in r
  {
    if s == [] then []
    else
      var p := s[..|s| - 1];
      if delete(s[|s| - 1]) then Kept(p, delete) else Kept(p, delete) + [s[|s| - 1]]
  }

  /** Exactly the kept elements survive, each as often as in the input. */
  lemma {:induction false} KeptCount<E>(s: seq<E>, delete: E -> bool)
    ensures forall x :: multiset(Kept(s, delete))[x] == if delete(x) then 0 else multiset(s)[x]
  {
    if s != [] {
      var p := s[..|s| - 1];
      KeptCount(p, delete);
      assert s == p + [s[|s| - 1]];
    }
  }

  lemma {:induction false} KeptIsSubsequence<E>(s: seq<E>, delete: E -> bool)
    ensures IsSubsequence(Kept(s, delete), s)
  {
    if s != [] {
      var p, y := s[..|s| - 1], s[|s| - 1];
      KeptIsSubsequence(p, delete);
      if delete(y) {
        SubsequenceExtend(Kept(p, delete), p, y);
        assert p + [y] == s;
      } else {
        var r := Kept(p, delete) + [y];
        assert r[..|r| - 1] == Kept(p, delete);
      }
    }
  }

  /** Only the predicate's answers on the elements of `s` matter. */
  lemma {:induction false} KeptExtensional<E>(s: seq<E>, d1: E -> bool, d2: E -> bool)
    requires forall x :: x in s ==> d1(x) == d2(x)
    ensures Kept(s, d1) == Kept(s, d2)
  {
    if s != [] {
      KeptExtensional(s[..|s| - 1], d1, d2);
    }
  }

  /** Deleting never breaks duplicate-freedom. */
  lemma {:induction false} KeptNoDuplicates<E>(s: seq<E>, delete: E -> bool)
    requires NoDuplicates(s)
    ensures NoDuplicates(Kept(s, delete))
  {
    if s != [] {
      var p := s[..|s| - 1];
      assert NoDuplicates(p);
      KeptNoDuplicates(p, delete);
    }
  }

  /** De-duplicating and deleting commute, so the two widgets, which clean their options in
      opposite orders, get the same list. */
  lemma {:induction false} DedupKeptCommute<E>(s: seq<E>, delete: E -> bool)
    ensures Dedup(Kept(s, delete)) == Kept(Dedup(s), delete)
  {
    if s != [] {
      var p, y := s[..|s| - 1], s[|s| - 1];
      assert s == p + [y];
      DedupKeptCommute(p, delete);
      DedupAppend(p, y);
      KeptAppend(p, y, delete);
      if !delete(y) {
        var k := Kept(p, delete);
        DedupAppend(k, y);
        assert y in k <==> y in p;
        if y !in p {
          KeptAppend(Dedup(p), y, delete);
        }
      } else if y !in p {
        KeptAppend(Dedup(p), y, delete);
      }
    }
  }

  lemma DedupAppend<E>(p: seq<E>, y: E)
    ensures Dedup(p + [y]) == if y in p then Dedup(p) else Dedup(p) + [y]
  {
    assert (p + [y])[..|p|] == p;
  }

  lemma KeptAppend<E>(p: seq<E>, y: E, delete: E -> bool)
    ensures Kept(p + [y], delete) == if delete(y) then Kept(p, delete) else Kept(p, delete) + [y]
  {
    assert (p + [y])[..|p|] == p;
  }

  /** `sliceDeleteFunc`: the Go loop that skips deleted elements. */
  method DeleteFunc<E(==)>(s: seq<E>, delete: E -> bool) returns (r: seq<E>)
    ensures r == Kept(s, delete)
  {
    r := [];
    var i := 0;
    while i < |s|
      invariant 0 <= i <= |s|
      invariant r == Kept(s[..i], delete)
    {
      var x := s[i];
      assert s[..i + 1] == s[..i] + [x];
      i := i + 1;
      if delete(x) {
        continue;
      }
      r := r + [x];
    }
    assert s[..i] == s;
  }

  // -------------------------------------------------------------------------
  // sliceClone and sliceContains

  /** `sliceClone`: a fresh buffer of the same length, filled by `copy`. */
  method Clone<E(==)>(s: seq<E>) returns (r: seq<E>)
    ensures |r| == |s|
    ensures forall i :: 0 <= i < |s| ==> r[i] == s[i]
  {
    var buf := new E[|s|](i requires 0 <= i < |s| => s[i]);
    r := buf[..];
  }

  /** `sliceContains`: a linear scan that returns at the first match. */
  method Contains<E(==)>(s: seq<E>, v: E) returns (found: bool)
    ensures found <==> v in s
  {
    var i := 0;
    while i < |s|
      invariant 0 <= i <= |s|
      invariant v !in s[..i]
    {
      if s[i] == v {
        return true;
      }
      assert s[..i + 1] == s[..i] + [s[i]];
      i := i + 1;
    }
    assert s[..i] == s;
    return false;
  }
}
