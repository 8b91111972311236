/** The two pieces of Node's POSIX `path` module that dependency discovery relies on. */
module Paths {

  /** The manifest file name that the upward search looks for and the cache reads. */
  const ManifestName: string := "package.json"

  /**
   * The right-to-left scan of `path.dirname`: starting at index `i` and stopping
   * before index 0, it skips a run of trailing separators while `matchedSlash`
   * holds and then yields the first separator after a non-separator, or -1.
   */
  function DirEnd(p: string, i: int, matchedSlash: bool): (end: int)
    requires i < |p|
    decreases i
    ensures end == -1 || (1 <= end <= i && p[end] == '/')
    ensures matchedSlash && end != -1 ==> end < i
    ensures !matchedSlash && end == -1 ==> forall k :: 1 <= k <= i ==> p[k] != '/'
    ensures !matchedSlash && end != -1 ==> forall k :: end < k <= i ==> p[k] != '/'
  {
    if i < 1 then -1
    else if p[i] == '/' then (if matchedSlash then DirEnd(p, i - 1, true) else i)
    else DirEnd(p, i - 1, false)
  }

  /**
   * `path.dirname` on POSIX: "." for a path without a directory part, "/" for the
   * root, otherwise the path up to (not including) its last separator.
   */
  function Dirname(p: string): (d: string)
    ensures d != ""
    ensures d == "." || (d <= p && (d == "/" || |d| < |p|))
  {
    if |p| == 0 then "."
    else
      var end := DirEnd(p, |p| - 1, true);
      if end == -1 then (if p[0] == '/' then "/" else ".")
      else if p[0] == '/' && end == 1 then "//"
      else p[..end]
  }

  /**
   * `path.join(dir, name)` for a single file name, without normalisation:
   * the directory, then exactly one separator when both parts are non-empty,
   * then the name.
   */
  function Join(dir: string, name: string): (p: string)
    ensures p == dir + name || p == dir + "/" + name
    ensures dir <= p
    ensures |dir| + |name| <= |p| <= |dir| + 1 + |name|
  {
    if dir == "" then name
    else if dir[|dir| - 1] == '/' then dir + name
    else dir + "/" + name
  }

  /** Joining onto a non-empty directory without a trailing separator inserts one '/'. */
  lemma JoinInsertsSeparator(dir: string, name: string)
    requires dir != "" && dir[|dir| - 1] != '/'
    ensures Join(dir, name) == dir + "/" + name
  {
  }

  /** Whether the segment after the separator at `k` is `.` or `..`. */
  predicate DotSegmentAt(p: string, k: int)
  {
    && 0 <= k && k + 1 < |p|
    && p[k] == '/' && p[k + 1] == '.'
    && (k + 2 == |p| || p[k + 2] == '/' || (p[k + 2] == '.' && (k + 3 == |p| || p[k + 3] == '/')))
  }

  /**
   * An absolute path as `path.resolve` returns it: rooted, without empty, `.`
   * or `..` segments, and without a trailing separator unless it is the root.
   */
  predicate Normalized(p: string)
  {
    && |p| > 0
    && p[0] == '/'
    && (p == "/" || p[|p| - 1] != '/')
    && (forall k :: 0 <= k < |p| - 1 ==> !(p[k] == '/' && p[k + 1] == '/'))
    && forall k :: 0 <= k < |p| ==> !DotSegmentAt(p, k)
  }

  /** A path with a `..` segment is not normalized: `find-up` would resolve it first. */
  lemma ParentSegmentNotNormalized(p: string)
    requires p == "/a/b/../c.ts"
    ensures !Normalized(p)
  {
    assert DotSegmentAt(p, 4);
  }

  /** The parent of a normalized path is normalized, and strictly shorter unless the path is the root. */
  lemma DirnameNormalized(p: string)
    requires Normalized(p)
    ensures Normalized(Dirname(p))
    ensures p == "/" <==> Dirname(p) == p
    ensures p != "/" ==> |Dirname(p)| < |p|
  {
    if p != "/" {
      assert p[|p| - 1] != '/';
      var end := DirEnd(p, |p| - 2, false);
      assert DirEnd(p, |p| - 1, true) == end;
      if end != -1 {
        assert p[end] == '/' && p[end - 1] != '/';
        if end > 0 {
          PrefixAtSeparatorKeepsDots(p, end);
        }
      }
    }
  }

  /** Cutting a path at a separator introduces no `.` or `..` segment. */
  lemma PrefixAtSeparatorKeepsDots(p: string, end: int)
    requires 0 < end < |p| && p[end] == '/'
    ensures forall k :: 0 <= k < end && DotSegmentAt(p[..end], k) ==> DotSegmentAt(p, k)
  {
    var d := p[..end];
    forall k | 0 <= k < end && DotSegmentAt(d, k)
      ensures DotSegmentAt(p, k)
    {
      assert d[k] == p[k] && d[k + 1] == p[k + 1];
      if k + 2 < end {
        assert d[k + 2] == p[k + 2];
        if k + 3 < end {
          assert d[k + 3] == p[k + 3];
        }
      }
    }
  }

  /** The directory part of a file name joined onto a normalized directory is that directory again. */
  lemma DirnameOfJoin(dir: string, name: string)
    requires Normalized(dir)
    requires name != "" && forall k :: 0 <= k < |name| ==> name[k] != '/'
    ensures Dirname(Join(dir, name)) == dir
  {
    var p := Join(dir, name);
    var n := |p|;
    if dir == "/" {
      assert p == "/" + name;
      assert forall k :: 1 <= k < n ==> p[k] == name[k - 1];
      assert DirEnd(p, n - 1, true) == DirEnd(p, n - 2, false);
    } else {
      assert p == dir + "/" + name;
      assert p[|dir|] == '/';
      assert forall k :: |dir| < k < n ==> p[k] == name[k - |dir| - 1];
      var end := DirEnd(p, n - 2, false);
      assert DirEnd(p, n - 1, true) == end;
      assert end == |dir|;
      assert p[..end] == dir;
    }
  }

  /** The directory of the manifest found in a normalized directory is that directory again. */
  lemma DirnameOfManifest(dir: string)
    requires Normalized(dir)
    ensures Dirname(Join(dir, ManifestName)) == dir
  {
    DirnameOfJoin(dir, ManifestName);
  }
}
