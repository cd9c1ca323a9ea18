/** `getFolderFromPath`: the folder a resolved module lives in. The only
    filesystem input is the "is a directory" answer of `fs.statSync`, given
    here as the fixed set `dirs` of paths that are directories. */
module Folders {
  import opened Paths

  /** A directory is its own folder; anything else lives in its dirname. */
  function GetFolderFromPath(dirs: set<Path>, fullPath: Path): (folder: Path)
    ensures fullPath in dirs ==> folder == fullPath
    ensures folder == "." || folder <= fullPath
  {
    if fullPath in dirs then fullPath else Dirname(fullPath)
  }

  /** A file `d/name` lives in folder `d`. */
  lemma FolderOfFile(dirs: set<Path>, d: Path, name: string)
    requires |d| > 0 && d[|d| - 1] != Sep
    requires |name| > 0 && Sep !in name
    requires d + [Sep] + name !in dirs
    ensures GetFolderFromPath(dirs, d + [Sep] + name) == d
  {
    DirnameOfChild(d, name);
  }
}
