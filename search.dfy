/**
 * The upward search for the nearest `package.json` that `findUp` performs,
 * over a file system given as a value.
 */
module Search {
  import opened Outcomes
  import opened Paths
  import opened Manifests

  /** The directories the search visits from `dir`: `dir` itself, then each parent until the root. */
  function Ancestors(dir: string): (a: seq<string>)
    decreases |dir|
    ensures |a| >= 1 && a[0] == dir
  {
    var up := Dirname(dir);
    if |up| < |dir| then [dir] + Ancestors(up) else [dir]
  }

  /** Whether `dir` holds a manifest in `fs`. */
  predicate HasManifest(fs: FileSystem, dir: string)
  {
    Join(dir, ManifestName) in fs
  }

  /**
   * `findUp('package.json', {cwd: dir})`: the manifest path in `dir` when there
   * is one, otherwise the search continues in the parent; None past the root.
   */
  function FindUp(fs: FileSystem, dir: string): (found: Option<string>)
    ensures found.Some? ==> found.value in fs
    decreases |dir|
  {
    if HasManifest(fs, dir) then Some(Join(dir, ManifestName))
    else
      var up := Dirname(dir);
      if |up| < |dir| then FindUp(fs, up) else None
  }

  /** Every directory the search visits from a normalized path is normalized, and the last one is the root. */
  lemma {:induction false} AncestorsNormalized(dir: string)
    requires Normalized(dir)
    ensures forall k :: 0 <= k < |Ancestors(dir)| ==> Normalized(Ancestors(dir)[k])
    ensures Ancestors(dir)[|Ancestors(dir)| - 1] == "/"
    decreases |dir|
  {
    DirnameNormalized(dir);
    if dir != "/" {
      AncestorsNormalized(Dirname(dir));
    }
  }

  /** `a[k]` is the first directory of `a` that holds a manifest. */
  predicate FirstWithManifest(fs: FileSystem, a: seq<string>, k: int)
  {
    && 0 <= k < |a|
    && HasManifest(fs, a[k])
    && forall j :: 0 <= j < k ==> !HasManifest(fs, a[j])
  }

  /**
   * A search that starts at a file of a normalized directory holding a
   * manifest finds that manifest, unless the file's own path has one.
   */
  lemma InParentDirectory(fs: FileSystem, dir: string, file: string)
    requires Normalized(dir)
    requires file != "" && forall k :: 0 <= k < |file| ==> file[k] != '/'
    requires !HasManifest(fs, Join(dir, file)) && HasManifest(fs, dir)
    ensures FindUp(fs, Join(dir, file)) == Some(Join(dir, ManifestName))
  {
    DirnameOfJoin(dir, file);
  }

  /** When the search finds nothing, no visited directory holds a manifest. */
  lemma {:induction false} FindUpAbsent(fs: FileSystem, dir: string)
    ensures FindUp(fs, dir).None? ==>
      forall k :: 0 <= k < |Ancestors(dir)| ==> !HasManifest(fs, Ancestors(dir)[k])
    decreases |dir|
  {
    var a := Ancestors(dir);
    var up := Dirname(dir);
    if !HasManifest(fs, dir) && |up| < |dir| {
      FindUpAbsent(fs, up);
      var b := Ancestors(up);
      assert FindUp(fs, dir) == FindUp(fs, up);
      assert a == [dir] + b;
      assert forall j :: 1 <= j < |a| ==> a[j] == b[j - 1];
    } else if !HasManifest(fs, dir) {
      assert a == [dir];
    }
  }

  /** When the search finds a manifest, it is the one of the first visited directory that holds one. */
  lemma {:induction false} FindUpFirst(fs: FileSystem, dir: string)
    ensures FindUp(fs, dir).Some? ==>
      exists k :: FirstWithManifest(fs, Ancestors(dir), k)
        && FindUp(fs, dir).value == Join(Ancestors(dir)[k], ManifestName)
    decreases |dir|
  {
    var a := Ancestors(dir);
    var up := Dirname(dir);
    if HasManifest(fs, dir) {
      assert FindUp(fs, dir) == Some(Join(dir, ManifestName));
      assert FirstWithManifest(fs, a, 0);
    } else if |up| < |dir| {
      FindUpFirst(fs, up);
      var b := Ancestors(up);
      assert FindUp(fs, dir) == FindUp(fs, up);
      if FindUp(fs, up).Some? {
        assert a == [dir] + b;
        var k :| FirstWithManifest(fs, b, k) && FindUp(fs, up).value == Join(b[k], ManifestName);
        assert a[k + 1] == b[k];
        assert forall j :: 1 <= j <= k ==> a[j] == b[j - 1];
        assert FirstWithManifest(fs, a, k + 1);
      }
    }
  }

  /**
   * The search returns the manifest of the nearest visited directory that has
   * one, and returns None exactly when no visited directory has one.
   */
  lemma {:induction false} FindUpNearest(fs: FileSystem, dir: string)
    ensures FindUp(fs, dir).None? ==>
      forall k :: 0 <= k < |Ancestors(dir)| ==> !HasManifest(fs, Ancestors(dir)[k])
    ensures FindUp(fs, dir).Some? ==>
      exists k :: FirstWithManifest(fs, Ancestors(dir), k)
        && FindUp(fs, dir).value == Join(Ancestors(dir)[k], ManifestName)
  {
    FindUpAbsent(fs, dir);
    FindUpFirst(fs, dir);
  }
}
