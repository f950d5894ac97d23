/** The order the single-select filter chip lists its options in: `sort.Slice` with the less
    function `strings.ToLower(a) < strings.ToLower(b)`. `sort.Slice` is a library call whose
    result order among options with equal keys is unspecified; the model sorts by insertion and
    every contract here claims only "sorted by key" and "a permutation of the input". */
module LowerOrder {
  import opened GoStrings

  /** The less function given to `sort.Slice`. */
  predicate KeyLess(a: string, b: string)
  {
    LexLess(Lower(a), Lower(b))
  }

  /** No element has a smaller key than an element before it. */
  predicate SortedByKey(s: seq<string>)
  {
    forall i, j :: 0 <= i < j < |s| ==> !KeyLess(s[j], s[i])
  }

  lemma KeyLessAsymmetric(a: string, b: string)
    requires KeyLess(a, b)
    ensures !KeyLess(b, a)
  {
    if KeyLess(b, a) {
      LexLessTransitive(Lower(a), Lower(b), Lower(a));
      LexLessIrreflexive(Lower(a));
    }
  }

  /** "Not less than" is transitive, which is what keeps a sorted list sorted. */
  lemma NotKeyLessTransitive(a: string, b: string, c: string)
    requires !KeyLess(a, b) && !KeyLess(b, c)
    ensures !KeyLess(a, c)
  {
    LexLessTotal(Lower(b), Lower(c));
    if LexLess(Lower(a), Lower(c)) && LexLess(Lower(c), Lower(b)) {
      LexLessTransitive(Lower(a), Lower(c), Lower(b));
    }
  }

  /** `x` placed in front of the first element whose key is not smaller than its own. */
  function Insert(x: string, s: seq<string>): (r: seq<string>)
    ensures multiset(r) == multiset(s) + multiset{x}
  {
    if s == [] then [x]
    else if !KeyLess(s[0], x) then
      assert s == [s[0]] + s[1..];
      [x] + s
    else
      assert s == [s[0]] + s[1..];
      [s[0]] + Insert(x, s[1..])
  }

  /** Inserting into a sorted list keeps it sorted. */
  lemma {:induction false} InsertSorted(x: string, s: seq<string>)
    requires SortedByKey(s)
    ensures SortedByKey(Insert(x, s))
  {
    if s != [] {
      if !KeyLess(s[0], x) {
        forall j | 1 <= j < |s| ensures !KeyLess(s[j], x) {
          NotKeyLessTransitive(s[j], s[0], x);
        }
      } else {
        var t := Insert(x, s[1..]);
        assert SortedByKey(s[1..]);
        InsertSorted(x, s[1..]);
        forall j | 0 <= j < |t| ensures !KeyLess(t[j], s[0]) {
          assert t[j] in multiset(t);
          if t[j] == x {
            KeyLessAsymmetric(s[0], x);
          } else {
            assert t[j] in multiset(s[1..]);
            var k :| 0 <= k < |s[1..]| && s[1..][k] == t[j];
            assert s[k + 1] == t[j];
          }
        }
        assert Insert(x, s) == [s[0]] + t;
      }
    }
  }

  /** The options sorted by lower-cased value. */
  function SortByKey(s: seq<string>): (r: seq<string>)
    ensures multiset(r) == multiset(s)
    ensures SortedByKey(r)
  {
    if s == [] then []
    else
      assert s == [s[0]] + s[1..];
      InsertSorted(s[0], SortByKey(s[1..]));
      Insert(s[0], SortByKey(s[1..]))
  }
}
