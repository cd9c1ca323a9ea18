# broccoli-npm-pull: dependency linking, modelled in Dafny

broccoli-npm-pull is a Broccoli plugin. It starts from a project's main file and
collects the external packages reachable through `require`. It then links each
root-level package into `<output>/node_modules/<name>`, once.
This project models the linking core of `index.js` and proves its properties:

- **Folder of a path** (`getFolderFromPath`). A directory is its own folder.
  Anything else lives in its `path.dirname`. `Dirname` follows Node's POSIX
  algorithm.
- **Scoped lookup paths** (the custom `resolve` callback). Leading candidate
  directories are dropped until the first one that starts with the requester's
  folder.
- **Root-module test** (`isRootModule`). The global regex `[\\/]node_modules[\\/]`
  must match exactly once. Matches do not overlap, and both separators are
  accepted.
- **Link planning and linking** (`linkNpmModule`). The destination is
  `<output>/node_modules/<name>`, where `<name>` is the piece after the first
  `node_modules`. The module is skipped when it was linked earlier in the run or
  the destination exists. Otherwise it is linked and recorded.
- **The walk** (`linkDeps`). The walk is depth-first. Core and ignored nodes are
  skipped, together with everything below them (`ignore.contains` is read as
  membership; see "## Left out"). A folder is recorded the first
  time it is seen. It is linked on that first sighting when the node's
  *filename* is a root module. The node's own dependencies are always walked.

Modules follow the program's structure:

- `Results`: the `Result` type that stands for a thrown exception.
- `Paths`: `indexOf`, `split`, `path.dirname` and `path.join` on `/`-separated strings.
- `Folders`, `Lookup`, `RootModule`, `Linker` and `Walker`: one piece of `index.js` each.

The filesystem is two pure oracles:

- `dirs` answers "is a directory", for `fs.statSync(p).isDirectory()`.
- `existing` answers "exists", for `fs.statSync` not throwing.

`symlinkOrCopySync(source, dest)` adds `dest` to `existing` and appends a
`LinkPlan(source, dest)` to the run's link log. The run state is threaded
explicitly through the walk. It holds `npmPaths`, `linkedModules`, `existing`
and `links`.

`linkNpmModule` throws a TypeError when its folder has no piece after
`node_modules`, because `path.join` receives `undefined`. This happens, for
example, for a single-file package `node_modules/foo.js`. The model returns
`Failure(MissingPackageName(folder))` in that case, and the walk aborts, as the
exception would.

Details of `index.js` that the model keeps:

- The root test is applied to `dependency.filename`, not to the folder (line 77).
- The walk recurses unconditionally (line 83). It terminates because the extracted
  tree is finite: Dafny checks it structurally. The folder dedup does not bound it.
- The resolve callback does not raise a "module not found" error. It passes
  whatever `Module._findPath` returns to `cb`, and that resolution is outside
  the model.
- A folder is recorded once (line 72) but linked according to the filename of
  the node that reached it first (line 77). When two nodes share a folder and
  only the later one is a root module, that folder never triggers a link
  (`Walker.FileFirstLinksNothing`); the package is linked only if another
  reachable folder plans it. Hence the walk promises that every root
  package is on disk only when the nodes sharing a folder agree on the root test.
- Planning comes in two readings (`Linker.Planner`). `AsWritten` is lines
  97-99 exactly as written. `Intended` is the corrected reading described under
  "## Findings". `LinkNpmModule` and the whole walk take the reading as a
  parameter (`Env.planner`), and every walk lemma holds for both.

## Model

| member | source | states |
|---|---|---|
| Paths.IndexOf | index.js:40 | Returns -1 exactly when the pattern does not occur, otherwise the leftmost occurrence; the result is 0 exactly when the pattern is a prefix |
| Paths.Split | index.js:100 | The pieces contain no separator, joining them with the separator gives the input back, and there is one piece exactly when the input has no separator |
| Paths.SplitJoin | index.js:100 | Splitting a join of separator-free pieces returns those pieces (round trip) |
| Paths.SplitSecondPiece | index.js:100-101 | `parts[1]` is the text between the first and second separator, whatever follows |
| Paths.JoinPath | index.js:101-102 | Joining with an empty side yields the other side |
| Paths.JoinPathParts | index.js:101-102 | A join starts with its first part and ends with its second, and puts at most one character, a separator, between two non-empty parts |
| Paths.Dirname | index.js:10 | `path.dirname` is "." or a non-empty prefix of the path |
| Paths.DirnameOfChild | index.js:10 | `path.dirname(d + "/" + name)` is `d` for a name without separators |
| Folders.GetFolderFromPath | index.js:9-11 | A directory is its own folder; otherwise the folder is "." or a prefix of the path |
| Folders.FolderOfFile | index.js:9-11 | A file `d/name` that is not a directory lives in folder `d` |
| Lookup.NarrowLookupPaths | index.js:39-45 | The result is a suffix of the candidates in order; its head starts with the folder; every dropped candidate does not; it is empty iff no candidate starts with the folder; it equals the reference `DropUntilScoped` |
| Lookup.ScopeLookupPaths | index.js:37-45 | Narrowing by the requester's folder keeps a suffix, and for a directory requester the head lies in its scope and the list is non-empty whenever the requester itself is a candidate |
| RootModule.CountMatchesFrom | index.js:91 | The global scan counts zero matches iff the pattern matches nowhere from the start index |
| RootModule.FirstMatchFrom | index.js:91 | The leftmost match at or after an index, or -1 iff there is none |
| RootModule.IsRootModule | index.js:89-92 | The global match count is exactly one; its characterization is stated by `RootModule.RootIffSingleMatch` |
| RootModule.RootIffSingleMatch | index.js:89-92 | A path is a root module iff a leftmost match exists and no match starts after its end |
| RootModule.NestedIsNotRoot | index.js:89-92 | Two separate `node_modules` segments make a path non-root |
| RootModule.SingleSegmentIsRoot | index.js:89-92 | A path whose only match is at one position is a root module |
| RootModule.NoSegmentIsNotRoot | index.js:89-92 | A path without a match is not a root module |
| Linker.Initial | index.js:21-22 | A run starts with no folders, no linked modules and no links, over the existing paths, in a valid state |
| Linker.PlanAsWritten | index.js:97-102 | The code's plan, from the first occurrence of the text "node_modules"; it fails only with the folder's missing package name |
| Linker.PlanAsWrittenAtPiece | index.js:97-102 | When the first occurrence of the text "node_modules" is at the end of `base` and is followed by `/<name>`, the code links `base/node_modules/<name>` to `output/node_modules/<name>`, whatever follows the name |
| Linker.Plan | index.js:97-102 | The intended plan, from the first whole `node_modules` piece; it fails iff there is no such piece or nothing follows it |
| Linker.PlanWith | index.js:97-102 | Either reading fails only with the folder's missing package name |
| Linker.PlanShape | index.js:97-102 | For `base/node_modules/name/rest`, the source is the package root `base/node_modules/name` (a prefix of the folder) and the destination is `output/node_modules/name` |
| Linker.PlanIgnoresSuffix | index.js:95-102 | Whatever follows the package's root folder does not change the plan |
| Linker.PlanAgreesWithAsWritten | index.js:97 | When the first occurrence of "node_modules" is a whole piece, the code's plan and the intended plan coincide |
| Linker.EmbeddedFilenameIsRoot | index.js:77 | `/my_node_modules/app/node_modules/lib/index.js` passes the root-module test |
| Linker.AsWrittenMisplansEmbeddedName | index.js:97-102 | For `/my_node_modules/app/node_modules/lib` the code plans `app` from a folder outside the module, while the intended plan links `lib` from its own folder |
| Linker.AsWrittenPlansLooseFile | index.js:97-102 | `/my_node_modules/app/node_modules/x.js` is a root module; for its folder the code plans `app` and carries on, while the intended reading fails for lack of a package name |
| Linker.LinkNpmModule | index.js:94-117 | Under either reading: fails iff planning fails, with the folder's missing package name; an output path already linked or existing leaves the state unchanged; otherwise exactly that path is linked, appended to `linkedModules` and added to the disk; `npmPaths` never changes |
| Linker.LinkNpmModuleKeepsValid | index.js:104-116 | Linking keeps the run state valid (no folder or destination twice, every linked destination exists, the link log matches `linkedModules`), and the planned destination exists afterwards |
| Linker.LinkNpmModuleIdempotent | index.js:104-116 | Linking the same folder a second time changes nothing |
| Walker.Skipped | index.js:69 | A core or ignored node is passed over with everything below it, as stated by `Walker.LinkDep` and `Walker.SkippedContributesNothing` |
| Walker.Visit | index.js:71-80 | A seen folder changes nothing; a new folder is appended to `npmPaths`; at most one link is made, and only on a first sighting of a root-module filename; a failure comes only from that link; on a first sighting of a root-module filename whose folder has a plan, the visit succeeds and the package is on disk afterwards, and when the folder has no package name the visit fails with that folder |
| Walker.FirstSighting | index.js:72-79 | A folder seen for the first time is appended to `npmPaths`; the visit fails exactly when the filename is a root module and the folder has no package name, and then with that folder; at most the folder's own plan is linked, only for a root-module filename; and for a root-module filename with a plan the package is on disk afterwards |
| Walker.LinkDeps | index.js:64-87 | The walk only grows the state: `npmPaths`, `linkedModules` and the link log are extended, and existing paths stay |
| Walker.LinkDep | index.js:68-84 | A core or ignored node leaves the state unchanged; any other node only grows it |
| Walker.VisitOutcome | index.js:71-80 | One visit records exactly its folder and makes at most the node's own root-module link, to a path that did not exist; and when the nodes sharing that folder agree on the root test, every one of them that is a root module has its package on disk afterwards |
| Walker.WalkDeps | index.js:64-87 | On success the state stays valid, the recorded folders are the old ones plus exactly the reachable ones, every new link is a reachable root module's plan to a path that did not exist, and only those destinations are added to the disk; when nodes sharing a folder agree on the root test, every reachable root module whose folder gets recorded has a package name and its package on disk; a failure names the folder of a reachable root module whose plan fails |
| Walker.WalkDep | index.js:68-84 | The same for one node and everything below it |
| Walker.Run | index.js:64-87 | A whole run from a fresh state records each reachable folder once, links each destination at most once, links only reachable root modules to paths that did not exist, and adds nothing else to the disk; when nodes sharing a folder agree on the root test, every reachable root module's folder has a package name and its package is on disk at the end; a failure names the folder of a reachable root module that has no package name |
| Walker.RunFailsIff | index.js:64-101 | When nodes sharing a folder agree on the root test, a run fails exactly when some reachable root module's folder has no package name |
| Walker.RootFoldersCovered | index.js:68-78 | A walk that recorded every reachable folder and covered every reachable node has a package name for every reachable root module's folder |
| Walker.RootFolderNodes | index.js:68-78 | Every root folder is the folder of a reachable node whose filename is a root module |
| Walker.RootPlanNodes | index.js:68-78 | Every root plan comes from a reachable node whose filename is a root module, and every reachable node's folder is a reachable folder |
| Walker.RerunLinksNothing | index.js:104-116 | `linkDeps` alone, run again over an output that already holds every planned package, links nothing and leaves the disk unchanged |
| Walker.SeenFolderStillRecurses | index.js:72-83 | A non-skipped node whose folder was seen still has its dependencies walked, from the unchanged state |
| Walker.SkippedContributesNothing | index.js:69-84 | A core or ignored node contributes no folder and no link, nor does anything below it |
| Walker.NonRootFirstHidesRoot | index.js:72-78 | Two leaf nodes sharing a folder, the first not a root module: the run records the folder and links nothing, although the second node's plan is a root plan |
| Walker.RootFirstLinks | index.js:72-78 | The same two nodes with the root module first: the run links its package |
| Walker.LooseFileIsRoot | index.js:89-92 | `/node_modules/foo.js` passes the root-module test |
| Walker.LooseDirHasNoPackage | index.js:97-101 | Under either reading, the folder `/node_modules` has no piece after `node_modules`, so planning fails with that folder |
| Walker.SingleFilePackageFails | index.js:64-101 | A tree holding only the single-file package `/node_modules/foo.js` makes the run fail with its folder `/node_modules`, under either reading |
| Walker.FileFirstLinksNothing | index.js:72-78 | For the directory `/node_modules/a/node_modules` and its file `x`, walking the file first records the folder and links nothing, although package `a` is a root plan (by `Walker.RootFirstLinks`, walking the directory first links it) |

## Findings

| source | as written | input that shows it | evidently intended | confidence | as-written member | corrected member |
|---|---|---|---|---|---|---|
| index.js:97-101 | `folder.indexOf("node_modules")` finds the text anywhere, even inside a longer directory name | folder `/my_node_modules/app/node_modules/lib` (its `index.js` is a root module): the code links `<output>/node_modules/app` from `/my_/node_modules/app` | split at the first whole `node_modules` path piece, as `isRootModule` does with its separators, and link `<output>/node_modules/lib` from the folder itself | high, not executed | Linker.AsWrittenMisplansEmbeddedName | Linker.PlanShape |

`Linker.PlanAsWritten` models lines 97-102 as written. `Linker.Plan` is the
corrected planner. `LinkNpmModule` and the walk take either one
(`Linker.Planner`), so the code as written and the corrected code are both
modelled, and the walk's properties are proved for both.
`Linker.AsWrittenPlansLooseFile` shows a second effect of the same line: a
module file lying directly in the embedded `node_modules` piece is linked as
package `app` by the code, while the corrected reading stops the build with
`MissingPackageName`, as the code itself does for `node_modules/x.js`.
`Linker.PlanAgreesWithAsWritten` proves that the two agree whenever the first
occurrence of the text is a whole path piece. That is the case for every
ordinary installation path.

## Left out

- The `CachingWriter` base class, the constructor's option defaults (`ignore`,
  `mainFile`) and the promise flow of `build()` are build-pipeline lifecycle.
  `Walker.Run` starts where `build()` calls `linkDeps` on the extracted tree.
- `fs.mkdirSync` of `<output>/node_modules` (line 25) is not modelled. It is a
  filesystem effect before the walk. The run starts from any given set of
  existing paths. That call throws when the directory already exists, so a
  whole `build()` never runs over a populated output;
  `Walker.RerunLinksNothing` is about `linkDeps` on its own.
- The `required` extractor is an external library. Its output is the input
  tree `Dep`. An absent `deps` list behaves exactly like an empty one, so it is
  modelled as one.
- `Module._resolveLookupPaths` and `Module._findPath` are Node internals. The
  candidate list is an input, and resolving against the narrowed list is left
  abstract.
- `fs.statSync` throwing for a missing path inside `getFolderFromPath` is not
  modelled. The directory oracle is total, because the extractor only reports
  resolved files.
- Failures of `symlinkOrCopySync` are not modelled, and neither is the choice
  between a symlink and a copy. Linking always succeeds and makes the
  destination exist.
- Paths.JoinPath: `path.join` normalisation of `.` and `..` pieces and of
  repeated separators is not modelled. Joining puts exactly one `/` between
  two non-empty parts. A base that already ends in `/` gets no second one.
- Walker.Skipped: line 69 calls `this.ignore.contains(id)`. A plain array has
  no `contains` method, so unless the runtime adds one to `Array.prototype`
  the code throws a TypeError at the first non-core node, even with the
  default `ignore: []` of line 16. The model assumes such an extension and
  reads the call as membership in `ignore`.
- Walker.Run: a failure carries only the error, not a state. When
  `linkNpmModule` throws, the links made earlier in the run stay on disk, and
  `npmPaths` already holds the failing folder; the model says nothing about
  what a failed build leaves behind.
- Platform separators are not modelled. Paths use `/` only. `isRootModule`
  still accepts `\` as well, as its regular expression does.
