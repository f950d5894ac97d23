/** Deciding whether an icon resource is an SVG image: by the extension of its name, or else by
    sniffing the first five bytes of its content. */
module Svg {
  import opened GoStrings

  /** A `fyne.Resource`: a name and the content bytes. */
  datatype Resource = Resource(name: string, content: seq<byte>)

  /** `filepath.Ext` with `/` as the path separator: the suffix of `path` that starts at the
      last dot of its final element, or empty when that element has no dot. */
  function Ext(path: string): (e: string)
    ensures |e| <= |path|
  {
    if path == [] then ""
    else
      var p, c := path[..|path| - 1], path[|path| - 1];
      if c == '/' then ""
      else if c == '.' then "."
      else if Ext(p) == [] then ""
      else Ext(p) + [c]
  }

  /** A non-empty extension is a suffix of the path that starts with its only dot and holds no
      separator; an empty one means every dot of the path is followed by a separator. */
  lemma {:induction false} ExtIsLastDotSuffix(path: string)
    ensures var e := Ext(path);
      && (e != [] ==> path[|path| - |e|..] == e && e[0] == '.')
      && (e != [] ==> forall k :: 1 <= k < |e| ==> e[k] != '.' && e[k] != '/')
      && (e == [] ==> forall k :: 0 <= k < |path| && path[k] == '.' ==> '/' in path[k + 1..])
  {
    if path != [] {
      var p, c := path[..|path| - 1], path[|path| - 1];
      assert path == p + [c];
      ExtIsLastDotSuffix(p);
      var e := Ext(p);
      if c == '/' {
        forall k | 0 <= k < |path| && path[k] == '.' ensures '/' in path[k + 1..] {
          assert path[k + 1..][|path| - k - 2] == '/';
        }
      } else if c == '.' {
        assert path[|path| - 1..] == ".";
      } else if e == [] {
        forall k | 0 <= k < |path| && path[k] == '.' ensures '/' in path[k + 1..] {
          assert k < |p| && p[k] == '.';
          assert p[k + 1..] <= path[k + 1..];
        }
      } else {
        assert path[|path| - |e| - 1..] == p[|p| - |e|..] + [c];
        assert Ext(path) == e + [c];
      }
    }
  }

  /** The extension is exactly the suffix that starts at a dot and holds no further dot or
      separator. */
  lemma {:induction false} ExtIsDottedSuffix(path: string, j: nat)
    requires j < |path| && path[j] == '.'
    requires forall k :: j < k < |path| ==> path[k] != '.' && path[k] != '/'
    ensures Ext(path) == path[j..]
    decreases |path|
  {
    if j < |path| - 1 {
      var p := path[..|path| - 1];
      ExtIsDottedSuffix(p, j);
      assert path[j..] == p[j..] + [path[|path| - 1]];
    } else {
      assert path[j..] == ".";
    }
  }

  /** `isFileSVG`: the extension is ".svg", ignoring case. */
  predicate IsFileSvg(path: string)
  {
    EqualFold(Ext(path), ".svg")
  }

  /** A path names an SVG file exactly when it ends in ".svg" in any mix of case. */
  lemma FileSvgBySuffix(path: string)
    ensures IsFileSvg(path) <==> |path| >= 4 && Lower(path[|path| - 4..]) == ".svg"
  {
    ExtIsLastDotSuffix(path);
    if |path| >= 4 && Lower(path[|path| - 4..]) == ".svg" {
      var j := |path| - 4;
      assert LowerChar(path[j]) == '.';
      assert LowerChar(path[j + 1]) == 's' && LowerChar(path[j + 2]) == 'v';
      assert LowerChar(path[j + 3]) == 'g';
      ExtIsDottedSuffix(path, j);
    }
    if IsFileSvg(path) {
      assert |Lower(Ext(path))| == 4;
    }
  }

  /** The ASCII bytes of a string literal. */
  function Ascii(s: string): (bs: seq<byte>)
    requires forall i :: 0 <= i < |s| ==> (s[i] as int) < 128
    ensures |bs| == |s| && forall i :: 0 <= i < |s| ==> bs[i] as int == s[i] as int
  {
    seq(|s|, i requires 0 <= i < |s| => s[i] as int as byte)
  }

  /** The three lower-cased prefixes that mark SVG content. */
  const DoctypePrefix: seq<byte> := Ascii("<!doc")
  const XmlPrefix: seq<byte> := Ascii("<?xml")
  const SvgTagPrefix: seq<byte> := Ascii("<svg ")

  /** `isResourceSVG`: an SVG file name, or content whose first five bytes, lower-cased, are
      one of the three prefixes. */
  function IsResourceSvg(res: Resource): (r: bool)
    ensures IsFileSvg(res.name) ==> r
    ensures !IsFileSvg(res.name) && |res.content| < 5 ==> !r
    ensures r && !IsFileSvg(res.name) ==> res.content[0] == 60
  {
    if IsFileSvg(res.name) then true
    else if |res.content| < 5 then false
    else
      var head := LowerBytes(res.content[..5]);
      assert head == DoctypePrefix || head == XmlPrefix || head == SvgTagPrefix ==> head[0] == 60;
      head == DoctypePrefix || head == XmlPrefix || head == SvgTagPrefix
  }

  /** Bytes after the fifth never matter, and the case of the first five does not either. */
  lemma OnlyFirstFiveBytesMatter(a: Resource, b: Resource)
    requires a.name == b.name && |a.content| >= 5 && |b.content| >= 5
    requires LowerBytes(a.content[..5]) == LowerBytes(b.content[..5])
    ensures IsResourceSvg(a) == IsResourceSvg(b)
  {
  }

  /** Content that starts with "<SVG " (upper case) is recognised whatever follows it. */
  lemma UpperCaseSvgTag(name: string, rest: seq<byte>)
    ensures IsResourceSvg(Resource(name, Ascii("<SVG ") + rest))
  {
    var c := Ascii("<SVG ") + rest;
    assert LowerBytes(c[..5]) == SvgTagPrefix;
  }
}
