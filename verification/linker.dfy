/** `linkNpmModule`: planning the output location of a root-level package
    and linking it there at most once. The run's state is the list of
    folders seen so far (`npmPaths`), the list of output paths linked so far
    (`linkedModules`), the set of paths that exist on disk (what
    `fs.statSync` succeeds on) and the log of links made. */
module Linker {
  import opened Paths
  import opened Results
  import opened RootModule

  /** One call of `symlinkOrCopySync(source, dest)` */
  datatype LinkPlan = LinkPlan(source: Path, dest: Path)

  /** `path.join("node_modules", undefined)` throws a TypeError when the
      folder has no piece after its `node_modules` piece. */
  datatype LinkError = MissingPackageName(folder: Path)

  datatype State = State(
    npmPaths: seq<Path>,
    linkedModules: seq<Path>,
    existing: set<Path>,
    links: seq<LinkPlan>)

  predicate NoDuplicates<T(==)>(s: seq<T>) {
    forall i, j :: 0 <= i < j < |s| ==> s[i] != s[j]
  }

  /** What every run keeps true: no folder or output path is recorded twice,
      every linked output path exists, and the link log matches
      `linkedModules` entry by entry. */
  predicate Valid(st: State) {
    && NoDuplicates(st.npmPaths)
    && NoDuplicates(st.linkedModules)
    && (forall i :: 0 <= i < |st.linkedModules| ==> st.linkedModules[i] in st.existing)
    && |st.links| == |st.linkedModules|
    && (forall i :: 0 <= i < |st.links| ==> st.links[i].dest == st.linkedModules[i])
  }

  /** A fresh run: nothing seen, nothing linked, `existing` on disk. */
  function Initial(existing: set<Path>): (st: State)
    ensures Valid(st)
    ensures st.npmPaths == [] && st.linkedModules == []
    ensures st.existing == existing && st.links == []
  {
    State([], [], existing, [])
  }

  /** `folder.substr(0, index)`: a negative length gives the empty string. */
  function BasePath(folder: Path, index: int): Path
    requires index <= |folder|
  {
    if index < 0 then "" else folder[..index]
  }

  /** `folder.substr(index)`: a negative start counts from the end, so an
      index of -1 gives the last character. */
  function FolderRelativePath(folder: Path, index: int): Path
    requires -1 <= index <= |folder|
  {
    if index >= 0 then folder[index..]
    else if |folder| > 0 then folder[|folder| - 1..]
    else ""
  }

  /** Lines 100-102 and the source of line 114: the package name is the
      second piece of the relative path. */
  function PlanFromRelative(outputPath: Path, folder: Path, basePath: Path, folderRelativePath: Path)
    : Result<LinkPlan, LinkError>
  {
    var modulePathParts := Split(folderRelativePath, Sep);
    if |modulePathParts| < 2 then Failure(MissingPackageName(folder))
    else
      var moduleRelativePath := JoinPath(NodeModules, modulePathParts[1]);
      Success(LinkPlan(JoinPath(basePath, moduleRelativePath), JoinPath(outputPath, moduleRelativePath)))
  }

  /** Lines 98-102 once the index of the `node_modules` text is known. */
  function PlanAt(outputPath: Path, folder: Path, index: int): Result<LinkPlan, LinkError>
    requires -1 <= index <= |folder|
  {
    PlanFromRelative(outputPath, folder, BasePath(folder, index), FolderRelativePath(folder, index))
  }

  /** The plan exactly as the code computes it: `folder.indexOf("node_modules")`
      finds the first occurrence of the text anywhere, even inside a longer
      directory name. */
  function PlanAsWritten(outputPath: Path, folder: Path): (r: Result<LinkPlan, LinkError>)
    ensures r.Failure? ==> r.error == MissingPackageName(folder)
  {
    PlanAt(outputPath, folder, IndexOf(folder, NodeModules))
  }

  /** "node_modules" is a whole path piece of `s` at index `i`. */
  predicate SegmentAt(s: string, i: int) {
    && OccursAt(s, NodeModules, i)
    && (i == 0 || s[i - 1] == Sep)
    && (i + |NodeModules| == |s| || s[i + |NodeModules|] == Sep)
  }

  /** Leftmost whole `node_modules` piece at or after `from`, or -1. */
  function SegmentIndexFrom(s: string, from: nat): (r: int)
    requires from <= |s|
    ensures r >= -1
    ensures r == -1 ==> forall j :: from <= j ==> !SegmentAt(s, j)
    ensures r >= 0 ==> from <= r && SegmentAt(s, r) && forall j :: from <= j < r ==> !SegmentAt(s, j)
    decreases |s| - from
  {
    if from + |NodeModules| > |s| then -1
    else if SegmentAt(s, from) then from
    else SegmentIndexFrom(s, from + 1)
  }

  function SegmentIndexOf(s: string): int {
    SegmentIndexFrom(s, 0)
  }

  /** The plan as intended: the package is the piece right after the first
      whole `node_modules` piece of the folder. It fails exactly when there is
      no such piece or nothing follows it (a module file lying directly in
      `node_modules`). */
  function Plan(outputPath: Path, folder: Path): (r: Result<LinkPlan, LinkError>)
    ensures r.Failure? <==>
      var k := SegmentIndexOf(folder);
      k < 0 || k + |NodeModules| == |folder|
    ensures r.Failure? ==> r.error == MissingPackageName(folder)
  {
    var k := SegmentIndexOf(folder);
    if k < 0 then Failure(MissingPackageName(folder))
    else
      var rel := FolderRelativePath(folder, k);
      assert Sep in rel <==> k + |NodeModules| < |folder| by {
        assert rel[..|NodeModules|] == NodeModules;
        assert Sep !in NodeModules;
        if k + |NodeModules| < |folder| {
          assert rel[|NodeModules|] == Sep;
        }
      }
      PlanAt(outputPath, folder, k)
  }

  /** `node_modules/name`, the output-relative path of package `name` */
  function PackageDir(name: string): Path {
    NodeModules + [Sep] + name
  }

  /** Where a package is planned: for a folder whose first `node_modules`
      piece starts right after `base` and is followed by the package `name`,
      the link's source is the package's own root folder `base/node_modules/name`
      (an ancestor of the folder, or the folder itself) and its destination
      is `outputPath/node_modules/name`. */
  lemma PlanShape(outputPath: Path, base: Path, name: string, rest: string)
    requires base == [] || base[|base| - 1] == Sep
    requires |name| > 0 && Sep !in name
    requires rest == [] || rest[0] == Sep
    requires SegmentIndexOf(base + PackageDir(name) + rest) == |base|
    ensures var r := Plan(outputPath, base + PackageDir(name) + rest);
      && r == Success(LinkPlan(base + PackageDir(name), JoinPath(outputPath, PackageDir(name))))
      && r.value.source <= base + PackageDir(name) + rest
  {
    var folder := base + PackageDir(name) + rest;
    PlanAtPiece(outputPath, base, name, rest);
    JoinPathAfterSep(base, PackageDir(name));
    assert Plan(outputPath, folder) == PlanAt(outputPath, folder, |base|);
  }

  lemma PlanAtPiece(outputPath: Path, base: Path, name: string, rest: string)
    requires |name| > 0 && Sep !in name
    requires rest == [] || rest[0] == Sep
    ensures PlanAt(outputPath, base + PackageDir(name) + rest, |base|)
         == Success(LinkPlan(JoinPath(base, PackageDir(name)), JoinPath(outputPath, PackageDir(name))))
  {
    var folder := base + PackageDir(name) + rest;
    var rel := NodeModules + [Sep] + name + rest;
    assert BasePath(folder, |base|) == base;
    assert FolderRelativePath(folder, |base|) == rel;
    SplitSecondPiece(NodeModules, name, rest, Sep);
    PlanFromPackageName(outputPath, folder, base, rel, name);
  }

  lemma PlanFromPackageName(outputPath: Path, folder: Path, base: Path, rel: Path, name: string)
    requires |name| > 0
    requires var parts := Split(rel, Sep); |parts| >= 2 && parts[1] == name
    ensures PlanFromRelative(outputPath, folder, base, rel)
         == Success(LinkPlan(JoinPath(base, PackageDir(name)), JoinPath(outputPath, PackageDir(name))))
  {
    var moduleRelativePath := JoinPath(NodeModules, name);
    assert moduleRelativePath == PackageDir(name) by {
      assert NodeModules[|NodeModules| - 1] != Sep;
    }
    assert PlanFromRelative(outputPath, folder, base, rel)
        == Success(LinkPlan(JoinPath(base, moduleRelativePath), JoinPath(outputPath, moduleRelativePath)));
  }

  /** Whatever lies below the package's root folder does not change the plan. */
  lemma PlanIgnoresSuffix(outputPath: Path, base: Path, name: string, rest1: string, rest2: string)
    requires base == [] || base[|base| - 1] == Sep
    requires |name| > 0 && Sep !in name
    requires rest1 == [] || rest1[0] == Sep
    requires rest2 == [] || rest2[0] == Sep
    requires SegmentIndexOf(base + PackageDir(name) + rest1) == |base|
    requires SegmentIndexOf(base + PackageDir(name) + rest2) == |base|
    ensures Plan(outputPath, base + PackageDir(name) + rest1)
         == Plan(outputPath, base + PackageDir(name) + rest2)
  {
    PlanShape(outputPath, base, name, rest1);
    PlanShape(outputPath, base, name, rest2);
  }

  /** The code and the intended plan agree whenever the first occurrence of
      the text "node_modules" is a whole path piece. */
  lemma PlanAgreesWithAsWritten(outputPath: Path, folder: Path)
    requires IndexOf(folder, NodeModules) >= 0
    requires SegmentAt(folder, IndexOf(folder, NodeModules))
    ensures PlanAsWritten(outputPath, folder) == Plan(outputPath, folder)
  {
    var k := IndexOf(folder, NodeModules);
    var first := SegmentIndexOf(folder);
    assert first >= 0;
    assert first <= k;
    assert OccursAt(folder, NodeModules, first);
    assert first == k;
  }

  /** `/my_node_modules/app/node_modules/lib`: the folder of package `lib`,
      installed under a project directory whose name merely contains the
      text "node_modules". */
  const EmbeddedFolder: Path := "/my_" + PackageDir("app") + [Sep] + PackageDir("lib")

  lemma EmbeddedFolderIndexOf()
    ensures IndexOf(EmbeddedFolder, NodeModules) == 4
  {
    var folder := EmbeddedFolder;
    assert folder[4..16] == NodeModules;
    assert OccursAt(folder, NodeModules, 4);
    forall j | 0 <= j < 4 ensures !OccursAt(folder, NodeModules, j) {
      OccurrenceHead(folder, NodeModules, j);
    }
  }

  lemma EmbeddedFolderSegment()
    ensures SegmentIndexOf(EmbeddedFolder) == 21
  {
    var folder := EmbeddedFolder;
    assert folder[21..33] == NodeModules;
    assert SegmentAt(folder, 21);
    forall j | 0 <= j < 21 ensures !SegmentAt(folder, j) {
      OccurrenceHead(folder, NodeModules, j);
    }
  }

  /** The module file in that folder passes the root-module test, so the walk
      does hand the folder to `linkNpmModule`. */
  lemma EmbeddedFilenameIsRoot()
    ensures IsRootModule(EmbeddedFolder + "/index.js")
  {
    var filename := EmbeddedFolder + "/index.js";
    assert filename[21..33] == NodeModules;
    assert MatchAt(filename, 20);
    forall j | 0 <= j < 20 ensures !MatchAt(filename, j) {
      MatchHead(filename, j);
    }
    assert FirstMatchFrom(filename, 0) == 20;
    RootIffSingleMatch(filename);
  }

  lemma EmbeddedAsWritten(outputPath: Path)
    ensures PlanAsWritten(outputPath, EmbeddedFolder)
         == Success(LinkPlan(JoinPath("/my_", PackageDir("app")), JoinPath(outputPath, PackageDir("app"))))
  {
    var rest := [Sep] + PackageDir("lib");
    assert EmbeddedFolder == "/my_" + PackageDir("app") + rest;
    assert IndexOf(EmbeddedFolder, NodeModules) == |"/my_"| by {
      EmbeddedFolderIndexOf();
    }
    PlanAsWrittenAtPiece(outputPath, "/my_", "app", rest);
  }

  /** The code's plan when the first occurrence of the text starts a
      `node_modules/<name>` piece right after `base`. */
  lemma PlanAsWrittenAtPiece(outputPath: Path, base: Path, name: string, rest: string)
    requires |name| > 0 && Sep !in name
    requires rest == [] || rest[0] == Sep
    requires IndexOf(base + PackageDir(name) + rest, NodeModules) == |base|
    ensures PlanAsWritten(outputPath, base + PackageDir(name) + rest)
         == Success(LinkPlan(JoinPath(base, PackageDir(name)), JoinPath(outputPath, PackageDir(name))))
  {
    PlanAtPiece(outputPath, base, name, rest);
  }

  lemma EmbeddedIntended(outputPath: Path)
    ensures Plan(outputPath, EmbeddedFolder)
         == Success(LinkPlan(EmbeddedFolder, JoinPath(outputPath, PackageDir("lib"))))
  {
    EmbeddedFolderSegment();
    var base := "/my_" + PackageDir("app") + [Sep];
    assert EmbeddedFolder == base + PackageDir("lib") + "";
    PlanShape(outputPath, base, "lib", "");
  }

  lemma EmbeddedSourceOutside()
    ensures !(JoinPath("/my_", PackageDir("app")) <= EmbeddedFolder)
  {
    var source := JoinPath("/my_", PackageDir("app"));
    assert source == "/my_" + [Sep] + PackageDir("app");
    assert source[4] == Sep;
    assert EmbeddedFolder[4] == 'n';
  }

  /** The discrepancy: `/my_node_modules/app/node_modules/lib/index.js` is a
      root module, and for its folder the code plans package `app` from
      `/my_/node_modules/app`, a folder that does not contain the module,
      where the intended plan links `lib` from its own folder. */
  lemma AsWrittenMisplansEmbeddedName(outputPath: Path)
    ensures PlanAsWritten(outputPath, EmbeddedFolder)
         == Success(LinkPlan(JoinPath("/my_", PackageDir("app")), JoinPath(outputPath, PackageDir("app"))))
    ensures !(JoinPath("/my_", PackageDir("app")) <= EmbeddedFolder)
    ensures Plan(outputPath, EmbeddedFolder)
         == Success(LinkPlan(EmbeddedFolder, JoinPath(outputPath, PackageDir("lib"))))
    ensures IsRootModule(EmbeddedFolder + "/index.js")
  {
    EmbeddedFilenameIsRoot();
    EmbeddedAsWritten(outputPath);
    EmbeddedIntended(outputPath);
    EmbeddedSourceOutside();
  }

  /** `/my_node_modules/app/node_modules`: a folder holding loose module files
      directly in its `node_modules` piece. */
  const EmbeddedLooseFolder: Path := "/my_" + PackageDir("app") + [Sep] + NodeModules

  lemma EmbeddedLooseIndexOf()
    ensures IndexOf(EmbeddedLooseFolder, NodeModules) == 4
  {
    var folder := EmbeddedLooseFolder;
    assert folder[4..16] == NodeModules;
    assert OccursAt(folder, NodeModules, 4);
    forall j | 0 <= j < 4 ensures !OccursAt(folder, NodeModules, j) {
      OccurrenceHead(folder, NodeModules, j);
    }
  }

  lemma EmbeddedLooseSegment()
    ensures SegmentIndexOf(EmbeddedLooseFolder) == 21
  {
    var folder := EmbeddedLooseFolder;
    assert folder[21..33] == NodeModules;
    assert SegmentAt(folder, 21);
    forall j | 0 <= j < 21 ensures !SegmentAt(folder, j) {
      OccurrenceHead(folder, NodeModules, j);
    }
  }

  lemma EmbeddedLooseFileIsRoot()
    ensures IsRootModule(EmbeddedLooseFolder + [Sep] + "x.js")
  {
    var filename := EmbeddedLooseFolder + [Sep] + "x.js";
    assert filename[21..33] == NodeModules;
    assert MatchAt(filename, 20);
    forall j | 0 <= j < 20 ensures !MatchAt(filename, j) {
      MatchHead(filename, j);
    }
    assert FirstMatchFrom(filename, 0) == 20;
    RootIffSingleMatch(filename);
  }

  /** The second face of the same discrepancy: the file
      `/my_node_modules/app/node_modules/x.js` is a root module; for its
      folder the code plans package `app` and carries on, while the intended
      reading finds no package after the folder's only whole `node_modules`
      piece, the case in which the code itself throws for an ordinary
      `node_modules/x.js`. */
  lemma AsWrittenPlansLooseFile(outputPath: Path)
    ensures IsRootModule(EmbeddedLooseFolder + [Sep] + "x.js")
    ensures PlanAsWritten(outputPath, EmbeddedLooseFolder)
         == Success(LinkPlan(JoinPath("/my_", PackageDir("app")), JoinPath(outputPath, PackageDir("app"))))
    ensures Plan(outputPath, EmbeddedLooseFolder) == Failure(MissingPackageName(EmbeddedLooseFolder))
  {
    EmbeddedLooseFileIsRoot();
    EmbeddedLooseAsWritten(outputPath);
    EmbeddedLooseIntended(outputPath);
  }

  lemma EmbeddedLooseAsWritten(outputPath: Path)
    ensures PlanAsWritten(outputPath, EmbeddedLooseFolder)
         == Success(LinkPlan(JoinPath("/my_", PackageDir("app")), JoinPath(outputPath, PackageDir("app"))))
  {
    var rest := [Sep] + NodeModules;
    assert EmbeddedLooseFolder == "/my_" + PackageDir("app") + rest;
    assert IndexOf(EmbeddedLooseFolder, NodeModules) == |"/my_"| by {
      EmbeddedLooseIndexOf();
    }
    PlanAsWrittenAtPiece(outputPath, "/my_", "app", rest);
  }

  lemma EmbeddedLooseIntended(outputPath: Path)
    ensures Plan(outputPath, EmbeddedLooseFolder) == Failure(MissingPackageName(EmbeddedLooseFolder))
  {
    EmbeddedLooseSegment();
  }

  /** Which reading of lines 97-99 a run plans with: the code as written
      (the first occurrence of the text) or the intended one (the first whole
      path piece). Everything the walk promises holds for both. */
  datatype Planner = AsWritten | Intended

  function PlanWith(planner: Planner, outputPath: Path, folder: Path): (r: Result<LinkPlan, LinkError>)
    ensures r.Failure? ==> r.error == MissingPackageName(folder)
  {
    match planner
    case AsWritten => PlanAsWritten(outputPath, folder)
    case Intended => Plan(outputPath, folder)
  }

  /** `linkNpmModule(folder)`: plan the package's output path, then skip it if
      it was linked before in this run or if it already exists on disk, and
      otherwise link it (the destination now exists) and record it. A folder
      without a package piece makes the whole build throw. */
  function LinkNpmModule(planner: Planner, outputPath: Path, st: State, folder: Path): (r: Result<State, LinkError>)
    ensures r.Failure? <==> PlanWith(planner, outputPath, folder).Failure?
    ensures r.Failure? ==> r.error == MissingPackageName(folder)
    ensures r.Success? ==>
      var dest := PlanWith(planner, outputPath, folder).value.dest;
      && r.value.npmPaths == st.npmPaths
      && (dest in st.linkedModules || dest in st.existing ==> r.value == st)
      && (dest !in st.linkedModules && dest !in st.existing ==>
            && r.value.linkedModules == st.linkedModules + [dest]
            && r.value.existing == st.existing + {dest}
            && r.value.links == st.links + [PlanWith(planner, outputPath, folder).value])
  {
    var plan :- PlanWith(planner, outputPath, folder);
    if plan.dest in st.linkedModules then
      // the destination was linked earlier in this run: nothing to do
      Success(st)
    else if plan.dest in st.existing then
      // `fs.statSync` succeeds: the path is already there.
      Success(st)
    else
      Success(st.(
        existing := st.existing + {plan.dest},
        linkedModules := st.linkedModules + [plan.dest],
        links := st.links + [plan]))
  }

  /** Linking keeps the run valid: an output path is recorded at most once,
      and only after it has been made to exist. In a valid state the planned
      destination exists afterwards, whether this call linked it or not. */
  lemma LinkNpmModuleKeepsValid(planner: Planner, outputPath: Path, st: State, folder: Path)
    ensures var r := LinkNpmModule(planner, outputPath, st, folder);
      Valid(st) && r.Success? ==> Valid(r.value) && PlanWith(planner, outputPath, folder).value.dest in r.value.existing
  {
    var r := LinkNpmModule(planner, outputPath, st, folder);
    if Valid(st) && r.Success? {
      var dest := PlanWith(planner, outputPath, folder).value.dest;
      if r.value != st {
        assert r.value.linkedModules == st.linkedModules + [dest];
        assert dest !in st.linkedModules;
      } else if dest in st.linkedModules {
        var i :| 0 <= i < |st.linkedModules| && st.linkedModules[i] == dest;
      }
    }
  }

  /** Linking the same folder twice in a row is the same as linking it once. */
  lemma LinkNpmModuleIdempotent(planner: Planner, outputPath: Path, st: State, folder: Path)
    ensures var r := LinkNpmModule(planner, outputPath, st, folder);
      r.Success? ==> LinkNpmModule(planner, outputPath, r.value, folder) == r
  {
  }
}
