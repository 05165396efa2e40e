/** The parts of Go's path/filepath the core uses, for slash-separated paths. */
module Paths {
  import opened Strings

  /** filepath.Join of a directory and one element, for the clean names
      the core joins (a directory without a trailing slash, an element
      without slashes). */
  function JoinPath(dir: string, elem: string): string
  {
    dir + "/" + elem
  }

  /** The joined path starts with the directory, then one slash, then the element. */
  lemma JoinPathShape(dir: string, elem: string)
    ensures var r := JoinPath(dir, elem);
      |r| == |dir| + 1 + |elem| && HasPrefix(r, dir) && HasSuffix(r, elem) && r[|dir|] == '/'
  {
  }

  /** The backward scan of filepath.Ext, at position `n`: every character
      from `n` on has already been passed over. */
  function ExtBefore(p: string, n: nat): (r: string)
    requires n <= |p|
    requires forall k :: n <= k < |p| ==> p[k] != '/' && p[k] != '.'
    ensures r == "" || (r[0] == '.' && HasSuffix(p, r) && '/' !in r)
    ensures r != "" ==> forall k :: |p| - |r| < k < |p| ==> p[k] != '.'
    decreases n
  {
    if n == 0 || p[n - 1] == '/' then ""
    else if p[n - 1] == '.' then p[n - 1..]
    else ExtBefore(p, n - 1)
  }

  /** filepath.Ext: the suffix from the last '.' of the final element, or "". */
  function Ext(p: string): string
  {
    ExtBefore(p, |p|)
  }

  /** The extension is empty, or a dot and then no other dot and no slash,
      and the path ends with it. */
  lemma ExtShape(p: string)
    ensures var r := Ext(p);
      && (r == "" || (r[0] == '.' && HasSuffix(p, r) && '/' !in r))
      && (r != "" ==> '.' !in r[1..])
  {
    var r := Ext(p);
    assert r != "" ==> forall k :: 0 <= k < |r| - 1 ==> r[1..][k] == p[|p| - |r| + 1 + k];
  }

  /** filepath.Ext(p) == ".mp4" exactly when the path ends in ".mp4". */
  lemma ExtMp4(p: string)
    ensures Ext(p) == ".mp4" <==> HasSuffix(p, ".mp4")
  {
    if HasSuffix(p, ".mp4") {
      var n := |p|;
      assert p[n - 1] == '4' && p[n - 2] == 'p' && p[n - 3] == 'm' && p[n - 4] == '.';
      assert ExtBefore(p, n) == ExtBefore(p, n - 1);
      assert ExtBefore(p, n - 1) == ExtBefore(p, n - 2);
      assert ExtBefore(p, n - 2) == ExtBefore(p, n - 3);
      assert ExtBefore(p, n - 3) == p[n - 4..];
    }
  }

  /** `p` without its trailing slashes: what is cut off is slashes only. */
  function StripSlashes(p: string): (r: string)
    ensures HasPrefix(p, r) && (r == "" || r[|r| - 1] != '/')
    ensures forall k :: |r| <= k < |p| ==> p[k] == '/'
  {
    if p != [] && p[|p| - 1] == '/' then StripSlashes(p[..|p| - 1]) else p
  }

  /** The part of `p` after its last '/'. */
  function AfterSlash(p: string): (r: string)
    ensures HasSuffix(p, r) && '/' !in r
    ensures |r| < |p| ==> p[|p| - |r| - 1] == '/'
    ensures p != [] && p[|p| - 1] != '/' ==> r != ""
  {
    if p == [] then ""
    else if p[|p| - 1] == '/' then ""
    else
      var r := AfterSlash(p[..|p| - 1]);
      assert p[..|p| - 1][|p| - 1 - |r|..] == p[|p| - 1 - |r|..|p| - 1];
      r + [p[|p| - 1]]
  }

  /** filepath.Base: the last element once trailing slashes are removed;
      "." for the empty path and "/" for a path of slashes. */
  function Base(p: string): (r: string)
    ensures r != ""
    ensures p == "" ==> r == "."
    ensures r != "." && r != "/" ==> '/' !in r
    ensures p != "" && p[|p| - 1] != '/' && r != "." ==> HasSuffix(p, r)
    ensures p != "" && StripSlashes(p) == "" ==> r == "/"
    ensures var q := StripSlashes(p);
      q != "" ==> HasSuffix(q, r) && '/' !in r && (|r| == |q| || q[|q| - |r| - 1] == '/')
  {
    if p == "" then "."
    else
      var stripped := StripSlashes(p);
      var last := AfterSlash(stripped);
      if last == "" then "/" else last
  }

  /** The base name of a joined path is the plain name joined last: Base
      undoes JoinPath. */
  lemma BaseOfJoin(dir: string, elem: string)
    requires elem != "" && '/' !in elem
    ensures Base(JoinPath(dir, elem)) == elem
  {
    var p := JoinPath(dir, elem);
    JoinPathShape(dir, elem);
    assert p[|p| - 1] == elem[|elem| - 1];
    assert StripSlashes(p) == p;
    var r := AfterSlash(p);
    assert r == p[|p| - |r|..] == elem;
  }
}
