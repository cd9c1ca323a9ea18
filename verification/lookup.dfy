/** The scoping adjustment the custom `resolve` callback applies to the
    candidate lookup directories of Node's resolver: leading candidates are
    dropped until the first one that starts with the requesting module's own
    folder, so that a package's nested copy wins over an ancestor's. */
module Lookup {
  import opened Paths
  import opened Folders

  /** A candidate lies in the requester's scope when the folder is a string
      prefix of it (`candidate.indexOf(folder) === 0`). */
  predicate InScope(candidate: Path, folder: Path) {
    folder <= candidate
  }

  /** Reference definition: the candidates from the first in-scope one on. */
  function DropUntilScoped(candidates: seq<Path>, folder: Path): seq<Path> {
    if |candidates| == 0 || InScope(candidates[0], folder) then candidates
    else DropUntilScoped(candidates[1..], folder)
  }

  /** The `while (paths.length)` / `paths.shift()` loop. */
  method NarrowLookupPaths(candidates: seq<Path>, folder: Path) returns (paths: seq<Path>)
    ensures |paths| <= |candidates| && paths == candidates[|candidates| - |paths|..]
    ensures |paths| > 0 ==> InScope(paths[0], folder)
    ensures forall i :: 0 <= i < |candidates| - |paths| ==> !InScope(candidates[i], folder)
    ensures |paths| == 0 <==> forall i :: 0 <= i < |candidates| ==> !InScope(candidates[i], folder)
    ensures paths == DropUntilScoped(candidates, folder)
  {
    paths := candidates;
    while |paths| > 0
      invariant paths == candidates[|candidates| - |paths|..]
      invariant forall i :: 0 <= i < |candidates| - |paths| ==> !InScope(candidates[i], folder)
      invariant DropUntilScoped(paths, folder) == DropUntilScoped(candidates, folder)
    {
      if IndexOf(paths[0], folder) == 0 {
        break;
      }
      paths := paths[1..];
    }
  }

  /** Lines 37-45 of the callback together: the requester's folder is taken
      from its filename, then the candidates are narrowed to that scope. */
  method ScopeLookupPaths(dirs: set<Path>, parentFilename: Path, candidates: seq<Path>)
    returns (paths: seq<Path>)
    ensures |paths| <= |candidates| && paths == candidates[|candidates| - |paths|..]
    ensures parentFilename in dirs && |paths| > 0 ==> parentFilename <= paths[0]
    ensures parentFilename in dirs && parentFilename in candidates ==> |paths| > 0
    ensures paths == DropUntilScoped(candidates, GetFolderFromPath(dirs, parentFilename))
  {
    var folder := GetFolderFromPath(dirs, parentFilename);
    paths := NarrowLookupPaths(candidates, folder);
  }
}
