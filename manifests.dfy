/**
 * A `package.json` as `require` sees it, and the list of dependency names the
 * cache builds from it with `Object.assign([], devKeys, depKeys)`.
 */
module Manifests {
  import opened Outcomes

  /**
   * What `require` makes of a manifest file. Each field holds `Object.keys` of
   * `devDependencies` or `dependencies` in key order, or None when the field is
   * absent or falsy (the source then passes `undefined`). A file that is not
   * valid JSON makes `require` throw.
   */
  datatype ManifestFile =
    | Manifest(devDependencies: Option<seq<string>>, dependencies: Option<seq<string>>)
    | Unparsable

  /** The files that exist, by absolute path, with their content. */
  type FileSystem = map<string, ManifestFile>

  function Max(a: int, b: int): int { if a < b then b else a }

  /** Assignment to index `i` of a JavaScript array without holes: overwrite, or append at the end. */
  function SetIndex<T>(a: seq<T>, i: nat, v: T): (b: seq<T>)
    requires i <= |a|
    ensures |b| == Max(|a|, i + 1) && b[i] == v
    ensures forall k :: 0 <= k < |a| && k != i ==> b[k] == a[k]
  {
    if i < |a| then a[i := v] else a + [v]
  }

  /**
   * Object.assign's copy of the own indices `from`, `from + 1`, ... of an array
   * source onto the target: those positions take the source's values, every
   * other position keeps the target's, and the array grows to the longer length.
   */
  function CopyIndices<T>(target: seq<T>, source: seq<T>, from: nat): (r: seq<T>)
    requires from <= |source| && from <= |target|
    ensures |r| == Max(|target|, |source|)
    ensures forall i :: 0 <= i < |r| ==> r[i] == if from <= i < |source| then source[i] else target[i]
    decreases |source| - from
  {
    if from == |source| then target
    else CopyIndices(SetIndex(target, from, source[from]), source, from + 1)
  }

  /**
   * `Object.assign(target, ...sources)` over array sources; an `undefined`
   * source is skipped. The result is at least as long as the target and every
   * defined source, and the last source, when defined, occupies its own indices.
   */
  function ObjectAssign<T>(target: seq<T>, sources: seq<Option<seq<T>>>): (r: seq<T>)
    ensures |r| >= |target|
    ensures forall k :: 0 <= k < |sources| && sources[k].Some? ==> |r| >= |sources[k].value|
    ensures |sources| > 0 && sources[|sources| - 1].Some? ==>
      r[..|sources[|sources| - 1].value|] == sources[|sources| - 1].value
    decreases |sources|
  {
    if sources == [] then target
    else
      var next := match sources[0]
        case None => target
        case Some(s) => CopyIndices(target, s, 0);
      assert forall k :: 1 <= k < |sources| ==> sources[1..][k - 1] == sources[k];
      ObjectAssign(next, sources[1..])
  }

  /** `Object.assign([], dev, deps)` is the copy of `deps` onto the copy of `dev`, each taken only when defined. */
  lemma AssignDevThenDeps<T>(dev: Option<seq<T>>, deps: Option<seq<T>>)
    ensures var afterDev := if dev.Some? then CopyIndices([], dev.value, 0) else [];
      ObjectAssign([], [dev, deps]) == if deps.Some? then CopyIndices(afterDev, deps.value, 0) else afterDev
  {
    var afterDev := if dev.Some? then CopyIndices([], dev.value, 0) else [];
    assert ObjectAssign([], [dev, deps]) == ObjectAssign(afterDev, [deps]);
    assert [dev, deps][1..] == [deps];
    assert [deps][1..] == [];
    var afterDeps := if deps.Some? then CopyIndices(afterDev, deps.value, 0) else afterDev;
    assert ObjectAssign(afterDev, [deps]) == ObjectAssign(afterDeps, []);
  }

  /**
   * The name list the cache stores for a manifest: `Object.assign([], devKeys,
   * depKeys)`. The merge is index by index, not a concatenation: the result is
   * as long as the longer key list, position i holds the i-th dependency when
   * there is one and the i-th dev-dependency otherwise.
   */
  function DependencyNames(dev: Option<seq<string>>, deps: Option<seq<string>>): (names: seq<string>)
    ensures var d, p := dev.GetOr([]), deps.GetOr([]);
      && |names| == Max(|d|, |p|)
      && forall i :: 0 <= i < |names| ==> names[i] == if i < |p| then p[i] else d[i]
  {
    AssignDevThenDeps(dev, deps);
    ObjectAssign([], [dev, deps])
  }

  /**
   * Closed form of the merge: all dependency names in order, followed by the
   * dev-dependency names at positions past the last dependency. The other
   * dev-dependency names are lost.
   */
  lemma DependencyNamesClosedForm(dev: Option<seq<string>>, deps: Option<seq<string>>)
    ensures var d, p := dev.GetOr([]), deps.GetOr([]);
      DependencyNames(dev, deps) == if |p| < |d| then p + d[|p|..] else p
  {
    var d, p, r := dev.GetOr([]), deps.GetOr([]), DependencyNames(dev, deps);
    var expected := if |p| < |d| then p + d[|p|..] else p;
    assert |r| == |expected|;
    forall i | 0 <= i < |r| ensures r[i] == expected[i] {
    }
  }

  /** A name is offered exactly when it is a dependency or a dev-dependency at a position no dependency occupies. */
  lemma DependencyNamesMembership(dev: Option<seq<string>>, deps: Option<seq<string>>, name: string)
    ensures var d, p := dev.GetOr([]), deps.GetOr([]);
      name in DependencyNames(dev, deps) <==>
        name in p || exists i :: |p| <= i < |d| && d[i] == name
  {
    DependencyNamesClosedForm(dev, deps);
    var d, p := dev.GetOr([]), deps.GetOr([]);
    if |p| < |d| {
      InPrefixOrTail(p, d, name);
    }
  }

  /** A value is in `p + d[|p|..]` exactly when it is in `p` or at a position of `d` at or past `|p|`. */
  lemma InPrefixOrTail(p: seq<string>, d: seq<string>, name: string)
    requires |p| < |d|
    ensures name in p + d[|p|..] <==> name in p || exists i :: |p| <= i < |d| && d[i] == name
  {
    var tail := d[|p|..];
    if name in p + tail && name !in p {
      var j :| 0 <= j < |tail| && tail[j] == name;
      assert d[j + |p|] == name;
    }
    if exists i :: |p| <= i < |d| && d[i] == name {
      var i :| |p| <= i < |d| && d[i] == name;
      assert tail[i - |p|] == name;
      assert name in p + tail;
    }
  }

  /**
   * The manifest of the repository's own tests (`lodash` as a dependency,
   * `vitest` as a dev-dependency) yields only `lodash`: both sit at index 0.
   */
  lemma DevDependencyShadowedAtSameIndex()
    ensures DependencyNames(Some(["vitest"]), Some(["lodash"])) == ["lodash"]
    ensures "vitest" !in DependencyNames(Some(["vitest"]), Some(["lodash"]))
  {
  }
}
