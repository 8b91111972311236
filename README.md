# import-prompter: dependency discovery in Dafny

This project models the dependency-discovery core of the import-prompter editor
extension (`src/getDeps.ts`). When a user types the import trigger, the
extension needs candidate package names. Three operations produce them. The
module-level state they share is `rootCacheMap`, `currentRoot`, `urlCache` and
the live file watches:

- **Project-root lookup (`findCurrentRoot`).** The state is `rootCacheMap`
  (active file path to project root) and `currentRoot` (the root found by the
  last successful search). A call either:
  - returns undefined when there is no active file;
  - answers from the cache;
  - reuses `currentRoot` when it is a raw string prefix of the active file path;
  - or searches upward with `findUp` for the nearest `package.json` and records
    the directory it finds.
- **Per-manifest name cache (`getPathDep`).** The state is `urlCache` (manifest
  path to name list). A missing manifest gives `[]`. A cached entry is returned
  as is. Otherwise the manifest is read and its names are built with
  `Object.assign([], devKeys, depKeys)`. That call merges the two key lists
  index by index; it does not concatenate them. The entry is then stored and a
  file watch is started. The watch's `onChange` replaces the entry and its
  `onDelete` removes the entry and stops the watch.
- **Aggregation (`getScripts`).** It returns undefined when either the project
  root or the workspace root is missing. When the two roots are equal it returns
  one name list. Otherwise it returns the project's list followed by the
  workspace's list, with no sorting and no deduplication.

Modules:

- `Outcomes` (outcomes.dfy): `Option` stands for `undefined`, and `Completion`
  stands for a call that returns normally or throws.
- `Paths` (paths.dfy): Node's POSIX `path.dirname` and `path.join`.
- `Manifests` (manifests.dfy): a `package.json` as `require` sees it, and the
  `Object.assign` merge.
- `Search` (search.dfy): the upward `findUp` walk.
- `GetDeps` (get_deps.dfy): that state (`rootCacheMap`, `currentRoot`,
  `urlCache` and the multiset of watched manifest paths) as a `Caches` value.
  It holds one specification function per call (`ResolveRoot`, `LookupDeps`,
  `ManifestChanged`, `ManifestDeleted`, `Scripts`), the lemmas about them, and
  class `DepsService`. That class keeps the caches as fields and updates them in
  place. Each of its methods is proved to perform the step its function
  describes and to keep the invariant `CachesValid`.

The file system is a value, `FileSystem`: a map from each existing manifest
path to what `require` makes of it. That is either the key lists of
`devDependencies` and `dependencies`, or `Unparsable`, for which `require`
throws. The active file (`getCurrentFileUrl`) and the workspace folder
(`getRootPath`) are parameters of the calls.

The repository's tests expect more than `src/getDeps.ts` does; the model
follows the code:

- `test/getDeps.test.ts:72` imports a `clearAllCaches` function. The module has
  none. Its only clearing operation is `deactivate` in `src/index.ts`, which
  empties `rootCacheMap` alone.
- `test/getDeps.test.ts:78` expects peer dependencies among the names. The code
  reads only `devDependencies` and `dependencies`.
- `test/getDeps.test.ts:117` expects the name of a member listed in
  `pnpm-workspace.yaml`. The code reads no workspace file.
- The code neither sorts nor deduplicates. It merges the two key lists index by
  index, so a dev dependency at a position that a dependency also occupies is
  lost (`DevDependencyShadowedAtSameIndex`). It concatenates the two roots'
  lists with duplicates kept (`ScriptsKeepsDuplicates`).
- The code reuses the last root when it is a raw string prefix of the active
  file path, not a path-segment prefix. The model keeps the raw test and shows
  what it does (`PrefixReuseCrossesSegments`).

## Model

| member | source | states |
|---|---|---|
| Paths.Dirname | src/getDeps.ts:26 | `path.dirname` never returns the empty string. It returns "." or a prefix of its argument, and that prefix is strictly shorter unless it is the root "/" |
| Paths.PrefixAtSeparatorKeepsDots | src/getDeps.ts:19-21 | Cutting a path at a separator creates no `.` or `..` segment, so a parent of a normalized path has none either |
| Paths.ParentSegmentNotNormalized | src/getDeps.ts:19-21 | A path with a `..` segment, such as `/a/b/../c.ts`, is not normalized: `find-up` resolves such a path before it walks upward |
| Paths.DirnameNormalized | src/getDeps.ts:19-21 | The parent of a normalized absolute path is normalized. It is the path itself exactly at the root, and strictly shorter otherwise, so the upward search ends at "/" |
| Paths.DirnameOfJoin | src/getDeps.ts:26 | For a normalized directory d and a file name without separators, `dirname(join(d, name)) == d` |
| Paths.DirnameOfManifest | src/getDeps.ts:26 | For a normalized directory d, `dirname(join(d, 'package.json')) == d`, so the recorded root is the directory where the manifest was found |
| Manifests.SetIndex | src/getDeps.ts:51 | Assigning index i of a JavaScript array without holes overwrites position i, or appends when i is the length. The length becomes max(length, i + 1) and every other position keeps its value |
| Manifests.CopyIndices | src/getDeps.ts:51 | Object.assign's copy of an array source's indices from `from` onward. The result is as long as the longer of target and source. Those positions hold the source's values and every other position keeps the target's |
| Manifests.ObjectAssign | src/getDeps.ts:51 | `Object.assign(target, ...sources)` with `undefined` sources skipped. The result is at least as long as the target and each defined source, and the last source, when defined, occupies its own indices |
| Manifests.AssignDevThenDeps | src/getDeps.ts:51 | `Object.assign([], dev, deps)` is the copy of deps' indices onto the copy of dev's, each taken only when the field is defined |
| Manifests.DependencyNames | src/getDeps.ts:51 | The list `getPathDep` stores has length max(\|dev\|, \|deps\|). Element i is deps[i] when i < \|deps\| and dev[i] otherwise. An absent field counts as an empty list |
| Manifests.DependencyNamesClosedForm | src/getDeps.ts:51 | The merged list equals deps followed by dev[\|deps\|..] when dev is longer, and deps alone otherwise |
| Manifests.DependencyNamesMembership | src/getDeps.ts:51 | A name is in the merged list if and only if it is a dependency, or a dev dependency at a position at or past \|deps\| |
| Manifests.DevDependencyShadowedAtSameIndex | src/getDeps.ts:51 | With `vitest` as the only dev dependency and `lodash` as the only dependency, the list is exactly `["lodash"]` |
| Paths.Join | src/getDeps.ts:45 | `path.join(dir, 'package.json')` is the directory followed by the name, with one '/' between them or none. So it starts with the directory and is at most one character longer than the two parts |
| Search.Ancestors | src/getDeps.ts:19-21 | The directories `findUp` visits start with the start directory itself |
| Search.FindUp | src/getDeps.ts:19-21 | `findUp('package.json', {cwd})` returns only paths of manifests that exist |
| Paths.JoinInsertsSeparator | src/getDeps.ts:45 | Joining a name onto a non-empty directory that does not end in '/' puts exactly one '/' between them |
| Search.AncestorsNormalized | src/getDeps.ts:19-21 | Every directory the search visits from a normalized path is normalized, and the last one visited is the root "/" |
| Search.InParentDirectory | src/getDeps.ts:19-21 | From a file in a normalized directory that holds a manifest, `findUp` returns that directory's manifest, unless the file's own path holds one |
| Search.FindUpAbsent | src/getDeps.ts:19-21 | When `findUp` returns undefined, no directory it visits holds a manifest |
| Search.FindUpFirst | src/getDeps.ts:19-21 | When `findUp` returns a path, it is the manifest of the first visited directory that holds one |
| Search.FindUpNearest | src/getDeps.ts:19-21 | `findUp` returns the manifest of the first visited directory that has one, and returns None exactly when no visited directory has one |
| GetDeps.Initial | src/getDeps.ts:6-7 | At module load the caches are empty and satisfy the cache invariant |
| GetDeps.ResolveRoot | src/getDeps.ts:8-30 | One `findCurrentRoot` call leaves `urlCache` and the watches alone. It keeps every cached root and adds at most the active file's entry. An undefined answer changes nothing. Any change means the answer is a root that became both `currentRoot` and the active file's cache entry |
| GetDeps.ResolveRootWithoutSearch | src/getDeps.ts:9-17 | Three cases skip the search: no active file gives undefined, a cache hit gives the cached root, and a `currentRoot` that is a string prefix of the file path gives `currentRoot`. In each case no cache changes and the answer does not depend on the file system |
| GetDeps.ResolveRootFindsNearest | src/getDeps.ts:19-29 | When the search runs on a normalized path, the root it returns is the nearest directory at or above the active file that holds a manifest. That root becomes both `currentRoot` and the file's cache entry, and nothing else changes. A failed search changes nothing and means no such directory exists |
| GetDeps.ResolveRootRecordsFound | src/getDeps.ts:19-29 | With no cache entry for the file and no last root, a search that finds the manifest of a normalized directory makes that directory the answer, `currentRoot` and the file's cache entry |
| GetDeps.ResolveRootIdempotent | src/getDeps.ts:13-29 | A second call for the same active file returns the same answer and changes nothing. Once a root has been returned, this holds even if the file system changed in between |
| GetDeps.PrefixReuseCrossesSegments | src/getDeps.ts:16-17 | With last root `/a`, the file `/ab/index.ts` is attributed to `/a`, although `/a` has no manifest and `findUp` would return `/ab/package.json` |
| GetDeps.LookupDeps | src/getDeps.ts:44-65 | One `getPathDep` call leaves `rootCacheMap` and `currentRoot` alone. It keeps every cached entry and adds at most the manifest's own. Names returned for an existing manifest are the ones cached for it. A throw from `require` changes nothing |
| GetDeps.LookupDepsMissingFile | src/getDeps.ts:45-47 | A missing manifest yields `[]` and leaves the caches unchanged, even when an entry for it is cached |
| GetDeps.LookupDepsMiss | src/getDeps.ts:48-53 | On a cache miss, the stored and returned list is the index-wise merge: its length is the max of the two key lists, and each element is given. Only the manifest's own entry is added, and it gains exactly one watch |
| GetDeps.LookupDepsMemoised | src/getDeps.ts:48-49 | A second lookup over an unchanged file system returns the identical list and changes nothing |
| GetDeps.ManifestChanged | src/getDeps.ts:54-58 | `onChange` keeps the set of cached manifests and every other entry, and leaves the roots and watches alone. When the re-read throws, nothing changes |
| GetDeps.ManifestDeleted | src/getDeps.ts:59-62 | `onDelete` removes exactly that manifest's entry, keeps the others and the roots, and leaves no watch on it when it had at most one |
| GetDeps.CallbacksTouchOnlyTheirKey | src/getDeps.ts:54-62 | `onChange` replaces the changed manifest's entry with the merge of its new content. `onDelete` removes that entry and its watch. Neither touches any other entry or watch |
| GetDeps.ResolveRootKeepsValid | src/getDeps.ts:26-27 | `findCurrentRoot` preserves the cache invariant: no recorded root is empty, and the watched paths are exactly the cached manifests, each watched once |
| GetDeps.LookupDepsKeepsValid | src/getDeps.ts:48-53 | `getPathDep` preserves the cache invariant, so no manifest is ever watched twice |
| GetDeps.ManifestChangedKeepsValid | src/getDeps.ts:54-58 | `onChange` on a cached manifest preserves the cache invariant: the cached manifests and the watches stay as they were |
| GetDeps.ManifestDeletedKeepsValid | src/getDeps.ts:59-62 | `onDelete` on a cached manifest preserves the cache invariant: the entry and its single watch are removed together |
| GetDeps.Scripts | src/getDeps.ts:32-41 | `getScripts` changes the roots exactly as its `findCurrentRoot` call does, keeps every cached name list, and returns names only when the workspace root is defined |
| GetDeps.ResolvedRootTruthy | src/getDeps.ts:13-29 | Under the invariant, any root `findCurrentRoot` returns is a non-empty string |
| GetDeps.ScriptsAbsentIff | src/getDeps.ts:33-36 | `getScripts` returns undefined if and only if the project root or the workspace root is missing |
| GetDeps.ScriptsWithBothRoots | src/getDeps.ts:37-40 | With both roots present, `getScripts` either throws or returns a list, never undefined |
| GetDeps.ScriptsCombinesLookups | src/getDeps.ts:37-40 | Equal roots give that root's lookup. Different roots give the project list followed by the workspace list: its length is the sum of the two, in that order. An exception from either lookup propagates, and one from the project lookup ends the call before the workspace lookup runs |
| GetDeps.ScriptsKeepsDuplicates | src/getDeps.ts:40 | If both a project and its workspace depend on `lodash`, the result is `["lodash", "lodash"]` |
| GetDeps.ScriptsKeepsValid | src/getDeps.ts:32-40 | `getScripts` preserves the cache invariant |
| GetDeps.DepsService.constructor | src/getDeps.ts:6-7 | Loading the module leaves every cache empty, with no watch |
| GetDeps.DepsService.FindCurrentRoot | src/getDeps.ts:8-30 | Updates `rootCacheMap` and `currentRoot` in place. The value it returns and the new state are those `ResolveRoot` gives for the old state |
| GetDeps.DepsService.GetPathDep | src/getDeps.ts:44-65 | Updates `urlCache` and the watch set in place. The value it returns (names or a throw) and the new state are those of `LookupDeps` |
| GetDeps.DepsService.OnChange | src/getDeps.ts:54-58 | Given a live watch on the url, replaces exactly that url's entry with the re-read merge. If the re-read throws, nothing changes |
| GetDeps.DepsService.OnDelete | src/getDeps.ts:59-62 | Given a live watch on the url, removes that url's entry and its watch, and keeps the invariant |
| GetDeps.DepsService.GetScripts | src/getDeps.ts:32-41 | Returns the value `Scripts` specifies and leaves the state `Scripts` gives for the old state |
| GetDeps.DepsService.ClearRoots | src/index.ts:33-35 | `deactivate` empties `rootCacheMap` and leaves `currentRoot`, `urlCache` and the watches unchanged |

## Left out

- The file system, `require`, `existsSync` and `findUp` are a value (`FileSystem`) passed to each call. `getCurrentFileUrl` and `getRootPath` are parameters. Node's `require` module cache is not modelled. Under that cache, a second `require` of the same manifest returns the first parse, so in Node `onChange` would store stale content. The model re-reads instead.
- The registration and stopping of file watches (`watchFiles`, `stop()`) are represented only by the multiset of watched manifest paths. Debouncing and the asynchronous timing of callbacks are left out. Each call and each callback is one sequential step.
- `Object.keys` order is taken as given by the manifest's key lists. This leaves out JavaScript's rule that integer-like keys come first, and the keys `Object.keys` produces for a field that is a string or array rather than an object.
- `existsSync` is true only for manifest files in the model. A directory named `package.json` is not represented.
- Path normalisation by `path.join` and `path.resolve` is left out. That covers `.` and `..` segments, repeated separators and relative paths resolved against the process directory. So are Windows paths.
- GetDeps.ResolveRootFindsNearest requires the active file to be a normalized absolute path: rooted, with no empty, `.` or `..` segment and no trailing separator. Search.FindUp matches `find-up` only from such a start path, because `find-up` resolves the path first. Search.FindUpNearest holds for every start string, but for other strings the directories visited are those of the model's `dirname`, not necessarily those `find-up` visits after resolving the path.
- The returned list is a value. Aliasing between the array that `getPathDep` returns and the one stored in `urlCache` is not modelled.
- `src/index.ts` is not part of this model except `deactivate`. Its completion-provider registration, line lookup and snippet construction are editor glue.
- Peer dependencies, sorting, deduplication, `excludePackages`, workspace YAML parsing, glob expansion and `clearAllCaches` do not exist in `src/getDeps.ts`. They are therefore not modelled.
