/**
 * Dependency discovery: the project-root lookup, the per-manifest name cache
 * with its watch callbacks, and `getScripts`, which combines them.
 *
 * The functions below describe one call each as a step from the module-level
 * caches before the call to the caches after it; class DepsService holds the
 * caches as fields and its methods do the work in place.
 */
module GetDeps {
  import opened Outcomes
  import opened Paths
  import opened Manifests
  import opened Search

  /** The module-level state. */
  datatype Caches = Caches(
    roots: map<string, string>,      // rootCacheMap: active file path to its project root
    currentRoot: Option<string>,     // the root the last successful search found
    urls: map<string, seq<string>>,  // urlCache: manifest path to its dependency names
    watches: multiset<string>)       // manifest paths with a live file watch

  /** The result of one call and the caches it leaves behind. */
  datatype Step<T> = Step(result: T, caches: Caches)

  /** JavaScript truthiness of a possibly undefined string: defined and not empty. */
  predicate Truthy(s: Option<string>)
  {
    s.Some? && s.value != ""
  }

  /**
   * What the code keeps true of the caches: a root is never the empty string,
   * and each cached manifest has exactly one live watch, while no other path has one.
   */
  ghost predicate CachesValid(c: Caches)
  {
    && (forall origin :: origin in c.roots ==> c.roots[origin] != "")
    && (c.currentRoot.Some? ==> c.currentRoot.value != "")
    && c.watches == multiset(c.urls.Keys)
  }

  /** The caches when the module is loaded. */
  function Initial(): (c: Caches)
    ensures CachesValid(c)
  {
    Caches(map[], None, map[], multiset{})
  }

  // ---------------------------------------------------------------------------
  // findCurrentRoot

  /** One call of `findCurrentRoot` while `activeFile` is the editor's current file. */
  function ResolveRoot(c: Caches, activeFile: Option<string>, fs: FileSystem): (s: Step<Option<string>>)
    ensures s.caches.urls == c.urls && s.caches.watches == c.watches
    ensures forall o :: o in c.roots ==> o in s.caches.roots && s.caches.roots[o] == c.roots[o]
    ensures s.caches.roots.Keys <= c.roots.Keys + (if activeFile.Some? then {activeFile.value} else {})
    ensures s.result.None? ==> s.caches == c
    ensures s.caches != c ==>
      && activeFile.Some? && s.result.Some? && s.caches.currentRoot == s.result
      && activeFile.value in s.caches.roots && s.caches.roots[activeFile.value] == s.result.value
  {
    if !Truthy(activeFile) then Step(None, c)
    else
      var cwd := activeFile.value;
      if cwd in c.roots then Step(Some(c.roots[cwd]), c)
      else if Truthy(c.currentRoot) && c.currentRoot.value <= cwd then Step(c.currentRoot, c)
      else match FindUp(fs, cwd)
        case None => Step(None, c)
        case Some(pkg) =>
          var root := Dirname(pkg);
          Step(Some(root), c.(roots := c.roots[cwd := root], currentRoot := Some(root)))
  }

  /**
   * Without an active file, on a cache hit and when the last root is a string
   * prefix of the active file, the call answers without searching: the answer
   * is the same whatever the file system holds, and no cache changes.
   */
  lemma ResolveRootWithoutSearch(c: Caches, activeFile: Option<string>, fs: FileSystem, fs': FileSystem)
    requires !Truthy(activeFile) || activeFile.value in c.roots
      || (Truthy(c.currentRoot) && c.currentRoot.value <= activeFile.value)
    ensures ResolveRoot(c, activeFile, fs) == ResolveRoot(c, activeFile, fs')
    ensures ResolveRoot(c, activeFile, fs).caches == c
    ensures !Truthy(activeFile) ==> ResolveRoot(c, activeFile, fs).result == None
    ensures Truthy(activeFile) && activeFile.value in c.roots ==>
      ResolveRoot(c, activeFile, fs).result == Some(c.roots[activeFile.value])
    ensures Truthy(activeFile) && activeFile.value !in c.roots ==>
      ResolveRoot(c, activeFile, fs).result == c.currentRoot
  {
  }

  /**
   * When the call does search from a normalized path, the root it records is
   * the nearest directory at or above the active file that holds a manifest:
   * it becomes the current root and the cache entry of the active file, and
   * nothing else changes. When no such directory exists nothing changes.
   */
  lemma ResolveRootFindsNearest(c: Caches, activeFile: Option<string>, fs: FileSystem)
    requires Truthy(activeFile) && Normalized(activeFile.value)
    requires activeFile.value !in c.roots
    requires !(Truthy(c.currentRoot) && c.currentRoot.value <= activeFile.value)
    ensures var cwd, s := activeFile.value, ResolveRoot(c, activeFile, fs);
      match s.result
      case None =>
        && s.caches == c
        && forall k :: 0 <= k < |Ancestors(cwd)| ==> !HasManifest(fs, Ancestors(cwd)[k])
      case Some(root) =>
        && (exists k :: FirstWithManifest(fs, Ancestors(cwd), k) && Ancestors(cwd)[k] == root)
        && s.caches == c.(roots := c.roots[cwd := root], currentRoot := Some(root))
  {
    var cwd := activeFile.value;
    FindUpNearest(fs, cwd);
    AncestorsNormalized(cwd);
    if FindUp(fs, cwd).Some? {
      var a := Ancestors(cwd);
      var k :| FirstWithManifest(fs, a, k) && FindUp(fs, cwd).value == Join(a[k], ManifestName);
      DirnameOfManifest(a[k]);
      assert ResolveRoot(c, activeFile, fs).result == Some(a[k]);
    }
  }

  /**
   * Asking twice for the same active file gives the same answer and the
   * second call changes nothing; once a root was returned, this holds even if
   * the file system changed in between.
   */
  lemma ResolveRootIdempotent(c: Caches, activeFile: Option<string>, fs: FileSystem, fs': FileSystem)
    ensures var s := ResolveRoot(c, activeFile, fs);
      ResolveRoot(s.caches, activeFile, fs) == Step(s.result, s.caches)
    ensures var s := ResolveRoot(c, activeFile, fs);
      s.result.Some? ==> ResolveRoot(s.caches, activeFile, fs') == Step(s.result, s.caches)
  {
  }

  /**
   * The prefix test is on characters, not path segments: with `/a` as the last
   * root, a file under `/ab` is attributed to `/a` even though `/a` has no
   * manifest and `/ab` has one.
   */
  lemma PrefixReuseCrossesSegments()
    ensures ResolveRoot(Caches(map[], Some("/a"), map[], multiset{}), Some("/ab/index.ts"), OnlyAbManifest).result
      == Some("/a")
    ensures !HasManifest(OnlyAbManifest, "/a")
    ensures FindUp(OnlyAbManifest, "/ab/index.ts") == Some("/ab/package.json")
  {
    assert "/a" <= "/ab/index.ts";
    assert Join("/a", ManifestName) == "/a/package.json";
    AbManifestFound("/ab/index.ts");
  }

  /** The file system of the prefix example: only `/ab` holds a manifest. */
  const OnlyAbManifest: FileSystem := map["/ab/package.json" := Manifest(None, None)]

  /** In the prefix example, the upward search from `/ab/index.ts` finds `/ab/package.json`. */
  lemma AbManifestFound(file: string)
    requires file == "/ab/index.ts"
    ensures FindUp(OnlyAbManifest, file) == Some("/ab/package.json")
  {
    var fs := OnlyAbManifest;
    JoinInsertsSeparator("/ab", "index.ts");
    assert Join("/ab", "index.ts") == file;
    JoinInsertsSeparator(file, ManifestName);
    assert |Join(file, ManifestName)| == 25 && |"/ab/package.json"| == 16;
    assert !HasManifest(fs, file);
    JoinInsertsSeparator("/ab", ManifestName);
    assert Join("/ab", ManifestName) == "/ab/package.json";
    InParentDirectory(fs, "/ab", "index.ts");
  }

  // ---------------------------------------------------------------------------
  // getPathDep and its watch callbacks

  /** One call of `getPathDep(dir)`. */
  function LookupDeps(c: Caches, fs: FileSystem, dir: string): (s: Step<Completion<seq<string>>>)
    ensures s.caches.roots == c.roots && s.caches.currentRoot == c.currentRoot
    ensures forall u :: u in c.urls ==> u in s.caches.urls && s.caches.urls[u] == c.urls[u]
    ensures s.caches.urls.Keys <= c.urls.Keys + {Join(dir, ManifestName)}
    ensures var url := Join(dir, ManifestName);
      url in fs && s.result.Normal? ==> url in s.caches.urls && s.caches.urls[url] == s.result.value
    ensures s.result.Throw? ==> s.caches == c
  {
    var url := Join(dir, ManifestName);
    if url !in fs then Step(Normal([]), c)
    else if url in c.urls then Step(Normal(c.urls[url]), c)
    else match fs[url]
      case Unparsable => Step(Throw, c)
      case Manifest(dev, deps) =>
        var names := DependencyNames(dev, deps);
        Step(Normal(names), c.(urls := c.urls[url := names], watches := c.watches + multiset{url}))
  }

  /** A missing manifest yields no names and leaves the caches alone, even when an entry for it is cached. */
  lemma LookupDepsMissingFile(c: Caches, fs: FileSystem, dir: string)
    requires Join(dir, ManifestName) !in fs
    ensures LookupDeps(c, fs, dir) == Step(Normal([]), c)
  {
  }

  /**
   * On a cache miss the manifest's names are stored and returned: index i holds
   * the i-th dependency if there is one, else the i-th dev-dependency; one watch
   * is added for the manifest; no other entry changes.
   */
  lemma LookupDepsMiss(c: Caches, fs: FileSystem, dir: string)
    requires CachesValid(c)
    requires var url := Join(dir, ManifestName); url in fs && url !in c.urls && fs[url].Manifest?
    ensures var url := Join(dir, ManifestName);
      var d, p := fs[url].devDependencies.GetOr([]), fs[url].dependencies.GetOr([]);
      var s := LookupDeps(c, fs, dir);
      && s.result.Normal?
      && var names := s.result.value;
      && |names| == Max(|d|, |p|)
      && (forall i :: 0 <= i < |names| ==> names[i] == if i < |p| then p[i] else d[i])
      && s.caches.urls == c.urls[url := names]
      && s.caches.watches[url] == 1
      && (forall u :: u != url ==> s.caches.watches[u] == c.watches[u])
      && s.caches.roots == c.roots && s.caches.currentRoot == c.currentRoot
  {
  }

  /** A second lookup with the file system unchanged returns the very list the first one returned, and changes nothing. */
  lemma LookupDepsMemoised(c: Caches, fs: FileSystem, dir: string)
    ensures var s := LookupDeps(c, fs, dir);
      s.result.Normal? ==> LookupDeps(s.caches, fs, dir) == Step(s.result, s.caches)
  {
  }

  /** `onChange` for `url`: re-read the manifest and replace its entry; when the read throws nothing changes. */
  function ManifestChanged(c: Caches, fs: FileSystem, url: string): (c': Caches)
    requires url in c.urls
    ensures c'.urls.Keys == c.urls.Keys
    ensures forall u :: u in c.urls && u != url ==> c'.urls[u] == c.urls[u]
    ensures c'.roots == c.roots && c'.currentRoot == c.currentRoot && c'.watches == c.watches
    ensures !(url in fs && fs[url].Manifest?) ==> c' == c
  {
    if url in fs && fs[url].Manifest? then
      c.(urls := c.urls[url := DependencyNames(fs[url].devDependencies, fs[url].dependencies)])
    else c
  }

  /** `onDelete` for `url`: drop its entry and stop its watch. */
  function ManifestDeleted(c: Caches, url: string): (c': Caches)
    ensures c'.urls.Keys == c.urls.Keys - {url}
    ensures forall u :: u in c'.urls ==> c'.urls[u] == c.urls[u]
    ensures c'.roots == c.roots && c'.currentRoot == c.currentRoot
    ensures c.watches[url] <= 1 ==> url !in c'.watches
  {
    c.(urls := c.urls - {url}, watches := c.watches - multiset{url})
  }

  /**
   * A change replaces exactly the entry of the changed manifest with the merge
   * of its new content; a deletion removes exactly that entry and its watch.
   */
  lemma CallbacksTouchOnlyTheirKey(c: Caches, fs: FileSystem, url: string, other: string)
    requires CachesValid(c) && url in c.urls && other != url
    ensures var c' := ManifestChanged(c, fs, url);
      && (url in fs && fs[url].Manifest? ==>
            c'.urls[url] == DependencyNames(fs[url].devDependencies, fs[url].dependencies))
      && (other in c'.urls <==> other in c.urls)
      && (other in c.urls ==> c'.urls[other] == c.urls[other])
      && c'.watches == c.watches
    ensures var c' := ManifestDeleted(c, url);
      && url !in c'.urls && c'.watches[url] == 0
      && (other in c'.urls <==> other in c.urls)
      && (other in c.urls ==> c'.urls[other] == c.urls[other])
      && c'.watches[other] == c.watches[other]
  {
  }

  /** `findCurrentRoot` keeps the caches valid: a recorded root is a `path.dirname`, never empty. */
  lemma ResolveRootKeepsValid(c: Caches, activeFile: Option<string>, fs: FileSystem)
    requires CachesValid(c)
    ensures CachesValid(ResolveRoot(c, activeFile, fs).caches)
  {
  }

  /** `getPathDep` keeps the caches valid: it starts a watch only for a manifest not cached yet. */
  lemma LookupDepsKeepsValid(c: Caches, fs: FileSystem, dir: string)
    requires CachesValid(c)
    ensures CachesValid(LookupDeps(c, fs, dir).caches)
    ensures forall u :: LookupDeps(c, fs, dir).caches.watches[u] <= 1
  {
    var url := Join(dir, ManifestName);
    if url in fs && url !in c.urls && fs[url].Manifest? {
      var names := DependencyNames(fs[url].devDependencies, fs[url].dependencies);
      assert c.urls[url := names].Keys == c.urls.Keys + {url};
      MultisetOfAddedKey(c.urls.Keys, url);
    }
  }

  lemma MultisetOfAddedKey(keys: set<string>, k: string)
    requires k !in keys
    ensures multiset(keys + {k}) == multiset(keys) + multiset{k}
  {
  }

  /** The `onChange` callback keeps the caches valid: it replaces an entry without adding a key. */
  lemma ManifestChangedKeepsValid(c: Caches, fs: FileSystem, url: string)
    requires CachesValid(c) && url in c.urls
    ensures CachesValid(ManifestChanged(c, fs, url))
  {
  }

  /** The `onDelete` callback keeps the caches valid: the entry and its one watch go together. */
  lemma ManifestDeletedKeepsValid(c: Caches, url: string)
    requires CachesValid(c) && url in c.urls
    ensures CachesValid(ManifestDeleted(c, url))
  {
  }

  // ---------------------------------------------------------------------------
  // getScripts

  /** One call of `getScripts` with the editor's active file and workspace folder. */
  function Scripts(c: Caches, activeFile: Option<string>, workspaceRoot: Option<string>, fs: FileSystem)
    : (s: Step<Completion<Option<seq<string>>>>)
    ensures s.caches.roots == ResolveRoot(c, activeFile, fs).caches.roots
    ensures s.caches.currentRoot == ResolveRoot(c, activeFile, fs).caches.currentRoot
    ensures forall u :: u in c.urls ==> u in s.caches.urls && s.caches.urls[u] == c.urls[u]
    ensures s.result.Normal? && s.result.value.Some? ==> Truthy(workspaceRoot)
  {
    var s1 := ResolveRoot(c, activeFile, fs);
    var current := s1.result;
    if !Truthy(current) || !Truthy(workspaceRoot) then Step(Normal(None), s1.caches)
    else if current.value == workspaceRoot.value then
      var s2 := LookupDeps(s1.caches, fs, current.value);
      Step(if s2.result.Throw? then Throw else Normal(Some(s2.result.value)), s2.caches)
    else
      var s2 := LookupDeps(s1.caches, fs, current.value);
      if s2.result.Throw? then Step(Throw, s2.caches)
      else
        var s3 := LookupDeps(s2.caches, fs, workspaceRoot.value);
        if s3.result.Throw? then Step(Throw, s3.caches)
        else Step(Normal(Some(s2.result.value + s3.result.value)), s3.caches)
  }

  /** A root found by `findCurrentRoot` is never the empty string. */
  lemma ResolvedRootTruthy(c: Caches, activeFile: Option<string>, fs: FileSystem)
    requires CachesValid(c)
    ensures ResolveRoot(c, activeFile, fs).result.Some? ==> Truthy(ResolveRoot(c, activeFile, fs).result)
  {
  }

  /** `getScripts` answers undefined exactly when the project root or the workspace root is missing. */
  lemma ScriptsAbsentIff(c: Caches, activeFile: Option<string>, workspaceRoot: Option<string>, fs: FileSystem)
    requires CachesValid(c)
    ensures Scripts(c, activeFile, workspaceRoot, fs).result == Normal(None) <==>
      ResolveRoot(c, activeFile, fs).result.None? || !Truthy(workspaceRoot)
  {
    ResolvedRootTruthy(c, activeFile, fs);
    if ResolveRoot(c, activeFile, fs).result.Some? && Truthy(workspaceRoot) {
      ScriptsWithBothRoots(c, activeFile, workspaceRoot, fs);
    }
  }

  /** With both roots present, `getScripts` throws or returns a list. */
  lemma ScriptsWithBothRoots(c: Caches, activeFile: Option<string>, workspaceRoot: Option<string>, fs: FileSystem)
    requires Truthy(ResolveRoot(c, activeFile, fs).result) && Truthy(workspaceRoot)
    ensures Scripts(c, activeFile, workspaceRoot, fs).result.Throw?
      || Scripts(c, activeFile, workspaceRoot, fs).result.value.Some?
  {
  }

  /**
   * With both roots present: one lookup when they are equal; otherwise the
   * project's names followed by the workspace's, neither sorted nor
   * deduplicated, so the length is the sum of both.
   */
  lemma ScriptsCombinesLookups(c: Caches, activeFile: Option<string>, workspaceRoot: Option<string>, fs: FileSystem)
    requires Truthy(ResolveRoot(c, activeFile, fs).result) && Truthy(workspaceRoot)
    ensures var s1 := ResolveRoot(c, activeFile, fs);
      var root, ws := s1.result.value, workspaceRoot.value;
      var s2 := LookupDeps(s1.caches, fs, root);
      var s := Scripts(c, activeFile, workspaceRoot, fs);
      && (root == ws ==>
            && s.caches == s2.caches
            && (s.result.Normal? <==> s2.result.Normal?)
            && (s2.result.Normal? ==> s.result.value == Some(s2.result.value)))
      && (root != ws && s2.result.Throw? ==> s.result == Throw && s.caches == s2.caches)
      && (root != ws && s2.result.Normal? ==>
            var s3 := LookupDeps(s2.caches, fs, ws);
            && s.caches == s3.caches
            && (s.result.Normal? <==> s3.result.Normal?)
            && (s3.result.Normal? ==>
                  var names := s.result.value.value;
                  && |names| == |s2.result.value| + |s3.result.value|
                  && names[..|s2.result.value|] == s2.result.value
                  && names[|s2.result.value|..] == s3.result.value))
  {
  }

  /** The file system of the duplicate example: a workspace `/w` and a project `/w/app`, each depending on `lodash`. */
  const TwoLodashManifests: FileSystem :=
    map["/w/package.json" := Manifest(None, Some(["lodash"])),
        "/w/app/package.json" := Manifest(None, Some(["lodash"]))]

  /**
   * Two manifests that both depend on `lodash` give `lodash` twice: the file
   * `/w/app/main.ts` resolves to project root `/w/app`, the workspace is `/w`.
   */
  lemma ScriptsKeepsDuplicates()
    ensures Scripts(Initial(), Some("/w/app/main.ts"), Some("/w"), TwoLodashManifests).result
      == Normal(Some(["lodash", "lodash"]))
  {
    var file := "/w/app/main.ts";
    AppManifestFound(file);
    ResolveRootRecordsFound(Initial(), file, TwoLodashManifests, "/w/app");
    LodashLookups(ResolveRoot(Initial(), Some(file), TwoLodashManifests).caches);
    LodashTwice(Initial(), file, "/w", TwoLodashManifests);
  }

  /** Two different roots whose lookups each yield `["lodash"]` give `lodash` twice. */
  lemma LodashTwice(c: Caches, file: string, ws: string, fs: FileSystem)
    requires ResolveRoot(c, Some(file), fs).result == Some("/w/app") && ws == "/w"
    requires var s2 := LookupDeps(ResolveRoot(c, Some(file), fs).caches, fs, "/w/app");
      && s2.result == Normal(["lodash"])
      && LookupDeps(s2.caches, fs, "/w").result == Normal(["lodash"])
    ensures Scripts(c, Some(file), Some(ws), fs).result == Normal(Some(["lodash", "lodash"]))
  {
    assert "/w/app" != "/w";
    assert ["lodash"] + ["lodash"] == ["lodash", "lodash"];
  }

  /** In the duplicate example, the upward search from the active file finds `/w/app/package.json`. */
  lemma AppManifestFound(file: string)
    requires file == "/w/app/main.ts"
    ensures FindUp(TwoLodashManifests, file) == Some(Join("/w/app", ManifestName))
  {
    var fs := TwoLodashManifests;
    JoinInsertsSeparator("/w/app", "main.ts");
    assert Join("/w/app", "main.ts") == file;
    JoinInsertsSeparator(file, ManifestName);
    assert |Join(file, ManifestName)| == 27 && |"/w/package.json"| == 15 && |"/w/app/package.json"| == 19;
    assert !HasManifest(fs, file);
    JoinInsertsSeparator("/w/app", ManifestName);
    assert Join("/w/app", ManifestName) == "/w/app/package.json";
    InParentDirectory(fs, "/w/app", "main.ts");
  }

  /**
   * With no cached root for the file and no last root, the call records and
   * returns the normalized directory whose manifest the search finds.
   */
  lemma ResolveRootRecordsFound(c: Caches, file: string, fs: FileSystem, dir: string)
    requires file != "" && file !in c.roots && c.currentRoot.None?
    requires Normalized(dir) && FindUp(fs, file) == Some(Join(dir, ManifestName))
    ensures ResolveRoot(c, Some(file), fs) == Step(Some(dir), c.(roots := c.roots[file := dir], currentRoot := Some(dir)))
  {
    DirnameOfManifest(dir);
  }

  /** In the duplicate example, both manifests yield `["lodash"]` on a fresh name cache. */
  lemma LodashLookups(c: Caches)
    requires c.urls == map[]
    ensures var s2 := LookupDeps(c, TwoLodashManifests, "/w/app");
      && s2.result == Normal(["lodash"])
      && LookupDeps(s2.caches, TwoLodashManifests, "/w").result == Normal(["lodash"])
  {
    LodashOnly();
    assert Join("/w/app", ManifestName) == "/w/app/package.json";
    assert Join("/w", ManifestName) == "/w/package.json";
  }

  /** A manifest whose only dependency is `lodash` yields `["lodash"]`. */
  lemma LodashOnly()
    ensures DependencyNames(None, Some(["lodash"])) == ["lodash"]
  {
    DependencyNamesClosedForm(None, Some(["lodash"]));
  }

  /** `getScripts` keeps the caches valid. */
  lemma ScriptsKeepsValid(c: Caches, activeFile: Option<string>, workspaceRoot: Option<string>, fs: FileSystem)
    requires CachesValid(c)
    ensures CachesValid(Scripts(c, activeFile, workspaceRoot, fs).caches)
  {
    var s1 := ResolveRoot(c, activeFile, fs);
    ResolveRootKeepsValid(c, activeFile, fs);
    var final := Scripts(c, activeFile, workspaceRoot, fs).caches;
    if Truthy(s1.result) && Truthy(workspaceRoot) {
      var s2 := LookupDeps(s1.caches, fs, s1.result.value);
      LookupDepsKeepsValid(s1.caches, fs, s1.result.value);
      var s3 := LookupDeps(s2.caches, fs, workspaceRoot.value);
      LookupDepsKeepsValid(s2.caches, fs, workspaceRoot.value);
      assert final == s2.caches || final == s3.caches;
    } else {
      assert final == s1.caches;
    }
  }

  // ---------------------------------------------------------------------------
  // The module state, updated in place

  class DepsService {
    var roots: map<string, string>
    var currentRoot: Option<string>
    var urls: map<string, seq<string>>
    var watches: multiset<string>

    ghost function State(): Caches
      reads this
    {
      Caches(roots, currentRoot, urls, watches)
    }

    ghost predicate Valid()
      reads this
    {
      CachesValid(State())
    }

    /** Loading the module: every cache empty, no watch. */
    constructor ()
      ensures Valid() && State() == Initial()
    {
      roots, currentRoot, urls, watches := map[], None, map[], multiset{};
    }

    /** `findCurrentRoot()`. */
    method FindCurrentRoot(activeFile: Option<string>, fs: FileSystem) returns (root: Option<string>)
      requires Valid()
      modifies this
      ensures Valid()
      ensures Step(root, State()) == ResolveRoot(old(State()), activeFile, fs)
    {
      ResolveRootKeepsValid(State(), activeFile, fs);
      if !Truthy(activeFile) {
        return None;
      }
      var cwd := activeFile.value;
      if cwd in roots {
        return Some(roots[cwd]);
      }
      if Truthy(currentRoot) && currentRoot.value <= cwd {
        return currentRoot;
      }
      var pkg := FindUp(fs, cwd);
      if pkg.None? {
        return None;
      }
      currentRoot := Some(Dirname(pkg.value));
      roots := roots[cwd := currentRoot.value];
      return currentRoot;
    }

    /** `getPathDep(dir)`: look up, or read, store and start watching, the names of `dir`'s manifest. */
    method GetPathDep(dir: string, fs: FileSystem) returns (names: Completion<seq<string>>)
      requires Valid()
      modifies this
      ensures Valid()
      ensures Step(names, State()) == LookupDeps(old(State()), fs, dir)
    {
      LookupDepsKeepsValid(State(), fs, dir);
      var url := Join(dir, ManifestName);
      if url !in fs {
        return Normal([]);
      }
      if url in urls {
        return Normal(urls[url]);
      }
      match fs[url]
      case Unparsable =>
        return Throw;
      case Manifest(dev, deps) =>
        var result := DependencyNames(dev, deps);
        urls := urls[url := result];
        watches := watches + multiset{url};
        return Normal(result);
    }

    /** The `onChange` callback of the watch on `url`. */
    method OnChange(url: string, fs: FileSystem)
      requires Valid() && url in watches
      modifies this
      ensures Valid()
      ensures State() == ManifestChanged(old(State()), fs, url)
    {
      ManifestChangedKeepsValid(State(), fs, url);
      if url in fs && fs[url].Manifest? {
        var pkg := fs[url];
        urls := urls[url := DependencyNames(pkg.devDependencies, pkg.dependencies)];
      }
    }

    /** The `onDelete` callback of the watch on `url`: forget the entry, then stop the watch. */
    method OnDelete(url: string)
      requires Valid() && url in watches
      modifies this
      ensures Valid()
      ensures State() == ManifestDeleted(old(State()), url)
    {
      ManifestDeletedKeepsValid(State(), url);
      urls := urls - {url};
      watches := watches - multiset{url};
    }

    /** `getScripts()`. */
    method GetScripts(activeFile: Option<string>, workspaceRoot: Option<string>, fs: FileSystem)
      returns (scripts: Completion<Option<seq<string>>>)
      requires Valid()
      modifies this
      ensures Valid()
      ensures Step(scripts, State()) == Scripts(old(State()), activeFile, workspaceRoot, fs)
    {
      var current := FindCurrentRoot(activeFile, fs);
      if !Truthy(current) || !Truthy(workspaceRoot) {
        return Normal(None);
      }
      if current.value == workspaceRoot.value {
        var names := GetPathDep(current.value, fs);
        if names.Throw? {
          return Throw;
        }
        return Normal(Some(names.value));
      }
      var own := GetPathDep(current.value, fs);
      if own.Throw? {
        return Throw;
      }
      var workspace := GetPathDep(workspaceRoot.value, fs);
      if workspace.Throw? {
        return Throw;
      }
      return Normal(Some(own.value + workspace.value));
    }

    /** `deactivate()`: `rootCacheMap.clear()`; the current root and the name cache survive. */
    method ClearRoots()
      requires Valid()
      modifies this
      ensures Valid()
      ensures State() == old(State()).(roots := map[])
    {
      roots := map[];
    }
  }
}
