/** The handful of Go `strings` and byte-level primitives the widgets rely on,
    restricted to what the model needs: ASCII lower-casing (for `strings.ToLower`
    and `strings.EqualFold`), the UTF-8 byte length `len(s)` of a string,
    substring search (`strings.Contains`) and Go's byte-wise string order `<`. */
module GoStrings {

  /** A byte of a resource's content (`[]byte` in Go). */
  newtype byte = x: int | 0 <= x < 256

  /** ASCII lower-casing of one character; every other character is unchanged. */
  function LowerChar(c: char): (d: char)
    ensures 'A' <= c <= 'Z' ==> d as int == c as int + 32
    ensures !('A' <= c <= 'Z') ==> d == c
  {
    if 'A' <= c <= 'Z' then (c as int + 32) as char else c
  }

  /** `strings.ToLower`, ASCII part: lower-cases every character. */
  function Lower(s: string): (r: string)
    ensures |r| == |s|
    ensures forall i :: 0 <= i < |s| ==> r[i] == LowerChar(s[i])
  {
    seq(|s|, i requires 0 <= i < |s| => LowerChar(s[i]))
  }

  /** ASCII lower-casing of one byte. */
  function LowerByte(b: byte): (c: byte)
    ensures 65 <= b <= 90 ==> c == b + 32
    ensures !(65 <= b <= 90) ==> c == b
  {
    if 65 <= b <= 90 then b + 32 else b
  }

  /** `strings.ToLower(string(bs))` on bytes, ASCII part. */
  function LowerBytes(bs: seq<byte>): (r: seq<byte>)
    ensures |r| == |bs|
    ensures forall i :: 0 <= i < |bs| ==> r[i] == LowerByte(bs[i])
  {
    seq(|bs|, i requires 0 <= i < |bs| => LowerByte(bs[i]))
  }

  /** `strings.EqualFold(a, b)` restricted to ASCII case folding. */
  predicate EqualFold(a: string, b: string)
  {
    Lower(a) == Lower(b)
  }

  /** The number of bytes the UTF-8 encoding of `c` takes. */
  function Utf8Width(c: char): (n: nat)
    ensures 1 <= n <= 4
    ensures n == 1 <==> (c as int) < 0x80
  {
    if (c as int) < 0x80 then 1
    else if (c as int) < 0x800 then 2
    else if (c as int) < 0x1_0000 then 3
    else 4
  }

  /** Go's `len(s)`: the length of `s` in bytes, not in characters. */
  function Utf8Len(s: string): (n: nat)
    ensures n >= |s|
    ensures |s| == 0 <==> n == 0
  {
    if s == [] then 0 else Utf8Len(s[..|s| - 1]) + Utf8Width(s[|s| - 1])
  }

  /** A string is shorter than two bytes exactly when it is empty or is one ASCII character. */
  lemma {:induction false} ShorterThanTwoBytes(s: string)
    ensures Utf8Len(s) < 2 <==> (s == [] || (|s| == 1 && (s[0] as int) < 0x80))
  {
    if |s| >= 2 {
      assert Utf8Len(s[..|s| - 1]) >= |s| - 1;
    } else if |s| == 1 {
      assert s[..0] == [];
    }
  }

  /** `strings.Contains(hay, needle)`: `needle` occurs in `hay` at some position. */
  predicate HasSubstring(hay: string, needle: string)
  {
    exists i :: 0 <= i <= |hay| && needle <= hay[i..]
  }

  /** Go's `a < b` on strings. Go compares the UTF-8 bytes; UTF-8 preserves the order of code
      points, so comparing character by character gives the same answer. */
  predicate LexLess(a: string, b: string)
  {
    if a == [] then b != []
    else if b == [] then false
    else if a[0] != b[0] then a[0] < b[0]
    else LexLess(a[1..], b[1..])
  }

  lemma {:induction false} LexLessIrreflexive(a: string)
    ensures !LexLess(a, a)
  {
    if a != [] {
      LexLessIrreflexive(a[1..]);
    }
  }

  lemma {:induction false} LexLessTransitive(a: string, b: string, c: string)
    requires LexLess(a, b) && LexLess(b, c)
    ensures LexLess(a, c)
  {
    if a != [] && b != [] && c != [] && a[0] == b[0] && b[0] == c[0] {
      LexLessTransitive(a[1..], b[1..], c[1..]);
    }
  }

  /** Any two different strings are ordered one way or the other. */
  lemma {:induction false} LexLessTotal(a: string, b: string)
    ensures a == b || LexLess(a, b) || LexLess(b, a)
  {
    if a != [] && b != [] && a[0] == b[0] {
      LexLessTotal(a[1..], b[1..]);
      if a[1..] == b[1..] {
        assert a == [a[0]] + a[1..] && b == [b[0]] + b[1..];
      }
    }
  }
}
