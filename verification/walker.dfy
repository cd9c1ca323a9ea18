/** `linkDeps`: the depth-first walk over the dependency tree produced by the
    static extractor. Core modules and ignored identifiers are skipped with
    everything below them; every other node records its folder the first
    time the folder is seen, links it on that first sighting when its
    filename is a root module, and always walks its own dependencies. */
module Walker {
  import opened Paths
  import opened Results
  import opened Folders
  import opened RootModule
  import opened Linker

  /** One node of the extracted tree: the identifier as written, the resolved
      filename, whether it is a core module, and its own dependencies (an
      absent list behaves exactly as an empty one). */
  datatype Dep = Dep(id: string, filename: Path, core: bool, deps: seq<Dep>)

  /** The run's configuration (the `ignore` option and the output directory),
      the "is a directory" oracle, and the reading of the planner in use. */
  datatype Env = Env(ignore: seq<string>, outputPath: Path, dirs: set<Path>, planner: Planner)

  /** `dependency.core || this.ignore.contains(dependency.id)`. The code calls
      `contains` on an array, which exists only through a prototype extension;
      it is read here as membership. */
  predicate Skipped(env: Env, d: Dep) {
    d.core || d.id in env.ignore
  }

  function FolderOf(env: Env, d: Dep): Path {
    GetFolderFromPath(env.dirs, d.filename)
  }

  function PlanOf(env: Env, folder: Path): Result<LinkPlan, LinkError> {
    PlanWith(env.planner, env.outputPath, folder)
  }

  /** Every earlier record is kept: the state only grows. */
  predicate Grows(st: State, st': State) {
    && st.npmPaths <= st'.npmPaths
    && st.linkedModules <= st'.linkedModules
    && st.links <= st'.links
    && st.existing <= st'.existing
  }

  /** The visit of one non-skipped node before its dependencies are walked:
      a folder seen before changes nothing; a new folder is recorded, and
      linked when the node's filename (not its folder) is a root module. */
  function Visit(env: Env, d: Dep, st: State): (r: Result<State, LinkError>)
    ensures FolderOf(env, d) in st.npmPaths ==> r == Success(st)
    ensures r.Success? && FolderOf(env, d) !in st.npmPaths ==>
      r.value.npmPaths == st.npmPaths + [FolderOf(env, d)]
    ensures r.Success? ==>
      || r.value.links == st.links
      || (&& FolderOf(env, d) !in st.npmPaths
          && IsRootModule(d.filename)
          && PlanOf(env, FolderOf(env, d)).Success?
          && r.value.links == st.links + [PlanOf(env, FolderOf(env, d)).value])
    ensures r.Failure? ==>
      && FolderOf(env, d) !in st.npmPaths
      && IsRootModule(d.filename)
      && r.error == MissingPackageName(FolderOf(env, d))
    ensures FolderOf(env, d) !in st.npmPaths && IsRootModule(d.filename)
            && PlanOf(env, FolderOf(env, d)).Failure? ==>
      r == Failure(MissingPackageName(FolderOf(env, d)))
    ensures r.Success? ==> Grows(st, r.value)
    ensures r.Success? && Valid(st) ==> Valid(r.value)
    ensures Valid(st) && FolderOf(env, d) !in st.npmPaths && IsRootModule(d.filename)
            && PlanOf(env, FolderOf(env, d)).Success? ==>
      r.Success? && PlanOf(env, FolderOf(env, d)).value.dest in r.value.existing
  {
    if FolderOf(env, d) in st.npmPaths then Success(st)
    else FirstSighting(env, d, st)
  }

  /** A folder seen for the first time: it is recorded, and linked when the
      node's filename is a root module. */
  function FirstSighting(env: Env, d: Dep, st: State): (r: Result<State, LinkError>)
    requires FolderOf(env, d) !in st.npmPaths
    ensures r.Success? ==> r.value.npmPaths == st.npmPaths + [FolderOf(env, d)] && Grows(st, r.value)
    ensures r.Success? ==>
      || r.value.links == st.links
      || (&& IsRootModule(d.filename)
          && PlanOf(env, FolderOf(env, d)).Success?
          && r.value.links == st.links + [PlanOf(env, FolderOf(env, d)).value])
    ensures r.Failure? <==> IsRootModule(d.filename) && PlanOf(env, FolderOf(env, d)).Failure?
    ensures r.Failure? ==> r.error == MissingPackageName(FolderOf(env, d))
    ensures r.Success? && Valid(st) ==> Valid(r.value)
    ensures Valid(st) && IsRootModule(d.filename) && PlanOf(env, FolderOf(env, d)).Success? ==>
      r.Success? && PlanOf(env, FolderOf(env, d)).value.dest in r.value.existing
  {
    var folder := FolderOf(env, d);
    // a folder not seen before: record it
    var seen := st.(npmPaths := st.npmPaths + [folder]);
    assert Valid(st) ==> Valid(seen);
    assert Grows(st, seen);
    if IsRootModule(d.filename) then
      LinkNpmModuleKeepsValid(env.planner, env.outputPath, seen, folder);
      LinkGrows(env.planner, env.outputPath, st, seen, folder);
      LinkNpmModule(env.planner, env.outputPath, seen, folder)
    else Success(seen)
  }

  /** Linking after a state that only grew keeps the folders and only grows
      the state further. */
  lemma LinkGrows(planner: Planner, outputPath: Path, st0: State, st: State, folder: Path)
    requires Grows(st0, st)
    ensures var r := LinkNpmModule(planner, outputPath, st, folder);
      r.Success? ==> r.value.npmPaths == st.npmPaths && Grows(st0, r.value)
  {
    var r := LinkNpmModule(planner, outputPath, st, folder);
    if r.Success? && r.value != st {
      assert st.linkedModules <= r.value.linkedModules && st.links <= r.value.links;
    }
  }

  /** `linkDeps(deps)`: the nodes in order, each with everything below it;
      the first failure aborts the walk. */
  function LinkDeps(env: Env, deps: seq<Dep>, st: State): (r: Result<State, LinkError>)
    ensures r.Success? ==> Grows(st, r.value)
    decreases deps
  {
    if |deps| == 0 then Success(st)
    else
      var st1 :- LinkDep(env, deps[0], st);
      LinkDeps(env, deps[1..], st1)
  }

  /** One iteration of the loop: skip, or visit and then recurse. */
  function LinkDep(env: Env, d: Dep, st: State): (r: Result<State, LinkError>)
    ensures Skipped(env, d) ==> r == Success(st)
    ensures r.Success? ==> Grows(st, r.value)
    decreases d
  {
    if Skipped(env, d) then Success(st)
    else
      var st1 :- Visit(env, d, st);
      // the node's own dependencies are walked whether or not its folder was new
      LinkDeps(env, d.deps, st1)
  }

  /** Reference definition: the folders of all nodes reachable from `deps`
      without passing through a skipped node. */
  function ReachableFolders(env: Env, deps: seq<Dep>): set<Path>
    decreases deps
  {
    if |deps| == 0 then {} else DepReachableFolders(env, deps[0]) + ReachableFolders(env, deps[1..])
  }

  function DepReachableFolders(env: Env, d: Dep): set<Path>
    decreases d
  {
    if Skipped(env, d) then {} else {FolderOf(env, d)} + ReachableFolders(env, d.deps)
  }

  /** Reference definition: the plans of all such nodes whose filename is a
      root module and whose folder has a package piece. */
  function RootPlans(env: Env, deps: seq<Dep>): set<LinkPlan>
    decreases deps
  {
    if |deps| == 0 then {} else DepRootPlans(env, deps[0]) + RootPlans(env, deps[1..])
  }

  function DepRootPlans(env: Env, d: Dep): set<LinkPlan>
    decreases d
  {
    if Skipped(env, d) then {}
    else
      var plan := PlanOf(env, FolderOf(env, d));
      (if IsRootModule(d.filename) && plan.Success? then {plan.value} else {})
      + RootPlans(env, d.deps)
  }

  /** Reference definition: the folders of all such nodes whose filename is
      a root module, which the walk hands to `linkNpmModule`. */
  function RootFolders(env: Env, deps: seq<Dep>): set<Path>
    decreases deps
  {
    if |deps| == 0 then {} else DepRootFolders(env, deps[0]) + RootFolders(env, deps[1..])
  }

  function DepRootFolders(env: Env, d: Dep): set<Path>
    decreases d
  {
    if Skipped(env, d) then {}
    else (if IsRootModule(d.filename) then {FolderOf(env, d)} else {}) + RootFolders(env, d.deps)
  }

  /** Reference definition: the nodes themselves that the walk reaches. */
  function ReachableNodes(env: Env, deps: seq<Dep>): set<Dep>
    decreases deps
  {
    if |deps| == 0 then {} else DepReachableNodes(env, deps[0]) + ReachableNodes(env, deps[1..])
  }

  function DepReachableNodes(env: Env, d: Dep): set<Dep>
    decreases d
  {
    if Skipped(env, d) then {} else {d} + ReachableNodes(env, d.deps)
  }

  /** Nodes that share a folder agree on whether their filename is a root
      module. The walk records a folder once (line 72) but tests the filename
      (line 77), so without this the first node to reach a folder decides for
      all of them. */
  ghost predicate AgreeOnRoot(env: Env, nodes: set<Dep>) {
    forall d1, d2 :: d1 in nodes && d2 in nodes && FolderOf(env, d1) == FolderOf(env, d2) ==>
      IsRootModule(d1.filename) == IsRootModule(d2.filename)
  }

  /** Every node of `nodes` whose folder is recorded and whose filename is a
      root module has a package name in its folder and its package on disk. */
  ghost predicate Covered(env: Env, nodes: set<Dep>, st: State) {
    forall d ::
      (&& d in nodes
       && FolderOf(env, d) in st.npmPaths
       && IsRootModule(d.filename))
      ==> && PlanOf(env, FolderOf(env, d)).Success?
          && PlanOf(env, FolderOf(env, d)).value.dest in st.existing
  }

  /** The destinations of a list of links */
  function Dests(links: seq<LinkPlan>): set<Path> {
    set i | 0 <= i < |links| :: links[i].dest
  }

  /** What a walk over `deps` from state `st` promises when it succeeds:
      the invariant still holds, the recorded folders are exactly the old
      ones plus the reachable ones, every new link is the plan of a reachable
      root module whose destination did not exist before, and the only new
      paths on disk are those destinations. */
  ghost predicate WalkOutcome(env: Env, st: State, st': State, folders: set<Path>, plans: set<LinkPlan>) {
    && Grows(st, st')
    && Valid(st')
    && (forall f :: f in st'.npmPaths <==> f in st.npmPaths || f in folders)
    && (forall i :: |st.links| <= i < |st'.links| ==> st'.links[i] in plans && st'.links[i].dest !in st.existing)
    && st'.existing == st.existing + Dests(st'.links[|st.links|..])
  }

  /** The walk over `deps`: on success, `WalkOutcome` with the reachable
      folders and root plans, and, when the nodes sharing a folder agree on
      the root test, every reachable root module's package ends up on disk;
      on failure, a reachable folder whose plan fails. */
  lemma {:induction false} WalkDeps(env: Env, deps: seq<Dep>, nodes: set<Dep>, st: State)
    requires Valid(st)
    ensures var r := LinkDeps(env, deps, st);
      && (r.Success? ==> WalkOutcome(env, st, r.value, ReachableFolders(env, deps), RootPlans(env, deps)))
      && (r.Failure? ==> && r.error.folder in ReachableFolders(env, deps)
                         && r.error.folder in RootFolders(env, deps)
                         && PlanOf(env, r.error.folder).Failure?)
    ensures var r := LinkDeps(env, deps, st);
      r.Success? && ReachableNodes(env, deps) <= nodes && AgreeOnRoot(env, nodes) && Covered(env, nodes, st) ==>
        Covered(env, nodes, r.value)
    decreases deps
  {
    if |deps| == 0 {
      assert st.links[|st.links|..] == [];
    } else {
      WalkDep(env, deps[0], nodes, st);
      var r1 := LinkDep(env, deps[0], st);
      if r1.Success? {
        var st1 := r1.value;
        WalkDeps(env, deps[1..], nodes, st1);
        var r := LinkDeps(env, deps[1..], st1);
        if r.Success? {
          WalkOutcomeTrans(env, st, st1, r.value, DepReachableFolders(env, deps[0]), ReachableFolders(env, deps[1..]),
            DepRootPlans(env, deps[0]), RootPlans(env, deps[1..]));
        }
      }
    }
  }

  lemma {:induction false} WalkDep(env: Env, d: Dep, nodes: set<Dep>, st: State)
    requires Valid(st)
    ensures var r := LinkDep(env, d, st);
      && (r.Success? ==> WalkOutcome(env, st, r.value, DepReachableFolders(env, d), DepRootPlans(env, d)))
      && (r.Failure? ==> && r.error.folder in DepReachableFolders(env, d)
                         && r.error.folder in DepRootFolders(env, d)
                         && PlanOf(env, r.error.folder).Failure?)
    ensures var r := LinkDep(env, d, st);
      r.Success? && DepReachableNodes(env, d) <= nodes && AgreeOnRoot(env, nodes) && Covered(env, nodes, st) ==>
        Covered(env, nodes, r.value)
    decreases d
  {
    if Skipped(env, d) {
      assert st.links[|st.links|..] == [];
    } else {
      var folder := FolderOf(env, d);
      var plan := PlanOf(env, folder);
      var r1 := Visit(env, d, st);
      if r1.Success? {
        var st1 := r1.value;
        var own: set<LinkPlan> := if IsRootModule(d.filename) && plan.Success? then {plan.value} else {};
        VisitOutcome(env, d, nodes, st);
        assert WalkOutcome(env, st, st1, {folder}, own);
        WalkDeps(env, d.deps, nodes, st1);
        var r := LinkDeps(env, d.deps, st1);
        if r.Success? {
          WalkOutcomeTrans(env, st, st1, r.value, {folder}, ReachableFolders(env, d.deps), own, RootPlans(env, d.deps));
        }
      }
    }
  }

  /** One visit: it records exactly its folder and makes at most the node's
      own link; and a node that reaches a new folder with a root-module
      filename leaves its package on disk, for every node sharing that folder
      when they agree on the root test. */
  lemma VisitOutcome(env: Env, d: Dep, nodes: set<Dep>, st: State)
    requires Valid(st)
    ensures var plan := PlanOf(env, FolderOf(env, d));
      Visit(env, d, st).Success? ==> WalkOutcome(env, st, Visit(env, d, st).value, {FolderOf(env, d)},
        if IsRootModule(d.filename) && plan.Success? then {plan.value} else {})
    ensures var r := Visit(env, d, st);
      r.Success? && d in nodes && AgreeOnRoot(env, nodes) && Covered(env, nodes, st) ==> Covered(env, nodes, r.value)
  {
    VisitSound(env, d, st);
    VisitCovers(env, d, nodes, st);
  }

  lemma VisitSound(env: Env, d: Dep, st: State)
    requires Valid(st)
    ensures var plan := PlanOf(env, FolderOf(env, d));
      Visit(env, d, st).Success? ==> WalkOutcome(env, st, Visit(env, d, st).value, {FolderOf(env, d)},
        if IsRootModule(d.filename) && plan.Success? then {plan.value} else {})
  {
    var folder := FolderOf(env, d);
    var plan := PlanOf(env, folder);
    var own: set<LinkPlan> := if IsRootModule(d.filename) && plan.Success? then {plan.value} else {};
    if Visit(env, d, st).Success? {
      if folder in st.npmPaths {
        VisitSeenOutcome(env, d, st, own);
      } else if IsRootModule(d.filename) {
        VisitLinkOutcome(env, d, st);
      } else {
        VisitRecordOutcome(env, d, st, own);
      }
    }
  }

  lemma VisitSeenOutcome(env: Env, d: Dep, st: State, plans: set<LinkPlan>)
    requires Valid(st) && FolderOf(env, d) in st.npmPaths
    ensures Visit(env, d, st) == Success(st)
    ensures WalkOutcome(env, st, st, {FolderOf(env, d)}, plans)
  {
    assert st.links[|st.links|..] == [];
  }

  lemma VisitRecordOutcome(env: Env, d: Dep, st: State, plans: set<LinkPlan>)
    requires Valid(st) && FolderOf(env, d) !in st.npmPaths && !IsRootModule(d.filename)
    ensures Visit(env, d, st).Success?
    ensures WalkOutcome(env, st, Visit(env, d, st).value, {FolderOf(env, d)}, plans)
  {
    var seen := st.(npmPaths := st.npmPaths + [FolderOf(env, d)]);
    assert Visit(env, d, st) == Success(seen);
    assert seen.links[|st.links|..] == [];
    RecordOutcome(env, st, seen, seen, FolderOf(env, d), plans);
  }

  lemma VisitLinkOutcome(env: Env, d: Dep, st: State)
    requires Valid(st) && FolderOf(env, d) !in st.npmPaths && IsRootModule(d.filename)
    ensures var plan := PlanOf(env, FolderOf(env, d));
      Visit(env, d, st).Success? ==> plan.Success? && WalkOutcome(env, st, Visit(env, d, st).value, {FolderOf(env, d)}, {plan.value})
  {
    var folder := FolderOf(env, d);
    var seen := st.(npmPaths := st.npmPaths + [folder]);
    var r := LinkNpmModule(env.planner, env.outputPath, seen, folder);
    assert Visit(env, d, st) == r;
    if r.Success? {
      assert Valid(seen);
      LinkOutcome(env.planner, env.outputPath, seen, folder);
      RecordOutcome(env, st, seen, r.value, folder, {PlanOf(env, folder).value});
    }
  }

  /** Recording a new folder and then making only links from `plans` is a
      walk outcome over that one folder. */
  lemma RecordOutcome(env: Env, st: State, seen: State, st': State, folder: Path, plans: set<LinkPlan>)
    requires Valid(st) && Valid(st')
    requires seen == st.(npmPaths := st.npmPaths + [folder])
    requires Grows(seen, st') && st'.npmPaths == seen.npmPaths
    requires forall i :: |st.links| <= i < |st'.links| ==> st'.links[i] in plans && st'.links[i].dest !in st.existing
    requires st'.existing == st.existing + Dests(st'.links[|st.links|..])
    ensures WalkOutcome(env, st, st', {folder}, plans)
  {
  }

  /** Linking as one step of the walk: it records no folder and makes at most
      the folder's own link, to a path that did not exist. */
  lemma LinkOutcome(planner: Planner, outputPath: Path, st: State, folder: Path)
    requires Valid(st)
    ensures var r := LinkNpmModule(planner, outputPath, st, folder);
      var plan := PlanWith(planner, outputPath, folder);
      r.Success? ==> && r.value.npmPaths == st.npmPaths
                     && Grows(st, r.value)
                     && Valid(r.value)
                     && (forall i :: |st.links| <= i < |r.value.links| ==>
                           r.value.links[i] == plan.value && r.value.links[i].dest !in st.existing)
                     && r.value.existing == st.existing + Dests(r.value.links[|st.links|..])
  {
    var r := LinkNpmModule(planner, outputPath, st, folder);
    LinkNpmModuleKeepsValid(planner, outputPath, st, folder);
    LinkGrows(planner, outputPath, st, st, folder);
    if r.Success? {
      var plan := PlanWith(planner, outputPath, folder).value;
      if plan.dest in st.linkedModules || plan.dest in st.existing {
        assert r.value == st;
        NoLinkOutcome(st);
      } else {
        LinkMadeOutcome(st, r.value, plan);
      }
    }
  }

  /** No link: nothing new on disk. */
  lemma NoLinkOutcome(st: State)
    ensures st.existing == st.existing + Dests(st.links[|st.links|..])
  {
    assert st.links[|st.links|..] == [];
  }

  /** One link appended to the log, and its destination added to the disk. */
  lemma LinkMadeOutcome(st: State, st': State, plan: LinkPlan)
    requires st'.links == st.links + [plan] && st'.existing == st.existing + {plan.dest}
    requires plan.dest !in st.existing
    ensures forall i :: |st.links| <= i < |st'.links| ==> st'.links[i] == plan && st'.links[i].dest !in st.existing
    ensures st'.existing == st.existing + Dests(st'.links[|st.links|..])
  {
    assert st'.links[|st.links|..] == [plan];
    assert [plan][0].dest == plan.dest;
    assert Dests([plan]) == {plan.dest};
  }

  lemma VisitCovers(env: Env, d: Dep, nodes: set<Dep>, st: State)
    requires Valid(st)
    ensures var r := Visit(env, d, st);
      r.Success? && d in nodes && AgreeOnRoot(env, nodes) && Covered(env, nodes, st) ==> Covered(env, nodes, r.value)
  {
    var r := Visit(env, d, st);
    if !(r.Success? && d in nodes && AgreeOnRoot(env, nodes) && Covered(env, nodes, st)) {
      return;
    }
    var st' := r.value;
    forall d2 | d2 in nodes && FolderOf(env, d2) in st'.npmPaths && IsRootModule(d2.filename)
        && PlanOf(env, FolderOf(env, d2)).Success?
      ensures PlanOf(env, FolderOf(env, d2)).value.dest in st'.existing
    {
      if FolderOf(env, d2) !in st.npmPaths {
        assert FolderOf(env, d2) == FolderOf(env, d);
      }
    }
  }

  /** Two walk outcomes in a row make one. */
  lemma WalkOutcomeTrans(env: Env, st0: State, st1: State, st2: State,
                         f1: set<Path>, f2: set<Path>, p1: set<LinkPlan>, p2: set<LinkPlan>)
    requires Valid(st0)
    requires WalkOutcome(env, st0, st1, f1, p1)
    requires WalkOutcome(env, st1, st2, f2, p2)
    ensures WalkOutcome(env, st0, st2, f1 + f2, p1 + p2)
  {
    var a, b, c := |st0.links|, |st1.links|, |st2.links|;
    assert st2.links[a..] == st1.links[a..] + st2.links[b..];
    DestsAppend(st1.links[a..], st2.links[b..]);
    forall i | a <= i < c
      ensures st2.links[i] in p1 + p2 && st2.links[i].dest !in st0.existing
    {
      if i < b {
        assert st2.links[i] == st1.links[i];
      }
    }
  }

  lemma DestsAppend(x: seq<LinkPlan>, y: seq<LinkPlan>)
    ensures Dests(x + y) == Dests(x) + Dests(y)
  {
    forall p | p in Dests(x + y) ensures p in Dests(x) + Dests(y) {
      var i :| 0 <= i < |x + y| && (x + y)[i].dest == p;
      if i >= |x| {
        assert y[i - |x|].dest == p;
      }
    }
    forall p | p in Dests(y) ensures p in Dests(x + y) {
      var i :| 0 <= i < |y| && y[i].dest == p;
      assert (x + y)[|x| + i].dest == p;
    }
    forall p | p in Dests(x) ensures p in Dests(x + y) {
      var i :| 0 <= i < |x| && x[i].dest == p;
      assert (x + y)[i].dest == p;
    }
  }

  /** `build()` after extraction: a fresh state over the paths that already
      exist, then one walk of the whole tree. On success every reachable
      folder is recorded exactly once, every link made is the plan of a
      reachable root module whose destination did not exist, no destination
      is linked twice, and nothing else appears on disk. When the nodes that
      share a folder agree on the root test, every reachable root module's
      package is on disk at the end: linked by this run or there before. */
  function Run(env: Env, deps: seq<Dep>, existing: set<Path>): (r: Result<State, LinkError>)
    ensures r.Success? ==>
      && Valid(r.value)
      && (forall f :: f in r.value.npmPaths <==> f in ReachableFolders(env, deps))
      && (forall i :: 0 <= i < |r.value.links| ==>
            r.value.links[i] in RootPlans(env, deps) && r.value.links[i].dest !in existing)
      && r.value.existing == existing + Dests(r.value.links)
    ensures r.Success? && AgreeOnRoot(env, ReachableNodes(env, deps)) ==>
      forall p :: p in RootPlans(env, deps) ==> p.dest in r.value.existing
    ensures r.Success? && AgreeOnRoot(env, ReachableNodes(env, deps)) ==>
      forall f :: f in RootFolders(env, deps) ==> PlanOf(env, f).Success?
    ensures r.Failure? ==>
      && r.error.folder in ReachableFolders(env, deps)
      && r.error.folder in RootFolders(env, deps)
      && PlanOf(env, r.error.folder).Failure?
  {
    WalkDeps(env, deps, ReachableNodes(env, deps), Initial(existing));
    var r := LinkDeps(env, deps, Initial(existing));
    RootPlansCovered(env, deps, r);
    RootFoldersCovered(env, deps, r);
    r
  }

  /** Under the agreement on the root test, a run fails exactly when some
      reachable root module's folder has no package name: the TypeError of
      `linkNpmModule` ends the build. */
  lemma RunFailsIff(env: Env, deps: seq<Dep>, existing: set<Path>)
    requires AgreeOnRoot(env, ReachableNodes(env, deps))
    ensures Run(env, deps, existing).Failure? <==>
      exists f :: f in RootFolders(env, deps) && PlanOf(env, f).Failure?
  {
    var r := Run(env, deps, existing);
    if r.Failure? {
      assert r.error.folder in RootFolders(env, deps) && PlanOf(env, r.error.folder).Failure?;
    }
  }

  /** A walk that recorded every reachable folder and covered every reachable
      node has a package name for every root folder. */
  lemma RootFoldersCovered(env: Env, deps: seq<Dep>, r: Result<State, LinkError>)
    ensures r.Success? && Covered(env, ReachableNodes(env, deps), r.value)
            && (forall f :: f in ReachableFolders(env, deps) ==> f in r.value.npmPaths) ==>
      forall f :: f in RootFolders(env, deps) ==> PlanOf(env, f).Success?
  {
    RootFolderNodes(env, deps);
    RootPlanNodes(env, deps);
  }

  /** A walk that recorded every reachable folder and covered every reachable
      node has every root plan's destination on disk. */
  lemma RootPlansCovered(env: Env, deps: seq<Dep>, r: Result<State, LinkError>)
    ensures r.Success? && Covered(env, ReachableNodes(env, deps), r.value)
            && (forall f :: f in ReachableFolders(env, deps) ==> f in r.value.npmPaths) ==>
      forall p :: p in RootPlans(env, deps) ==> p.dest in r.value.existing
  {
    RootPlanNodes(env, deps);
  }

  /** Every root plan comes from a reachable node with a root-module filename,
      and every reachable node's folder is a reachable folder. */
  lemma {:induction false} RootPlanNodes(env: Env, deps: seq<Dep>)
    ensures forall p :: p in RootPlans(env, deps) ==>
      exists d :: d in ReachableNodes(env, deps) && IsRootModule(d.filename) && PlanOf(env, FolderOf(env, d)) == Success(p)
    ensures forall d :: d in ReachableNodes(env, deps) ==> FolderOf(env, d) in ReachableFolders(env, deps)
    decreases deps
  {
    if |deps| > 0 {
      DepRootPlanNodes(env, deps[0]);
      RootPlanNodes(env, deps[1..]);
    }
  }

  /** Every root folder is the folder of a reachable node with a root-module
      filename. */
  lemma {:induction false} RootFolderNodes(env: Env, deps: seq<Dep>)
    ensures forall f :: f in RootFolders(env, deps) ==>
      exists d :: d in ReachableNodes(env, deps) && IsRootModule(d.filename) && FolderOf(env, d) == f
    decreases deps
  {
    if |deps| > 0 {
      DepRootFolderNodes(env, deps[0]);
      RootFolderNodes(env, deps[1..]);
    }
  }

  lemma {:induction false} DepRootFolderNodes(env: Env, d: Dep)
    ensures forall f :: f in DepRootFolders(env, d) ==>
      exists d' :: d' in DepReachableNodes(env, d) && IsRootModule(d'.filename) && FolderOf(env, d') == f
    decreases d
  {
    if !Skipped(env, d) {
      RootFolderNodes(env, d.deps);
      assert DepReachableNodes(env, d) == {d} + ReachableNodes(env, d.deps);
      forall f | f in DepRootFolders(env, d)
        ensures exists d' :: d' in DepReachableNodes(env, d) && IsRootModule(d'.filename) && FolderOf(env, d') == f
      {
        if f in RootFolders(env, d.deps) {
          var d' :| d' in ReachableNodes(env, d.deps) && IsRootModule(d'.filename) && FolderOf(env, d') == f;
          assert d' in DepReachableNodes(env, d);
        } else {
          assert IsRootModule(d.filename) && FolderOf(env, d) == f;
          assert d in DepReachableNodes(env, d);
        }
      }
    }
  }

  lemma {:induction false} DepRootPlanNodes(env: Env, d: Dep)
    ensures forall p :: p in DepRootPlans(env, d) ==>
      exists d' :: d' in DepReachableNodes(env, d) && IsRootModule(d'.filename) && PlanOf(env, FolderOf(env, d')) == Success(p)
    ensures forall d' :: d' in DepReachableNodes(env, d) ==> FolderOf(env, d') in DepReachableFolders(env, d)
    decreases d
  {
    if !Skipped(env, d) {
      RootPlanNodes(env, d.deps);
      var plan := PlanOf(env, FolderOf(env, d));
      assert DepReachableNodes(env, d) == {d} + ReachableNodes(env, d.deps);
      forall p | p in DepRootPlans(env, d)
        ensures exists d' :: d' in DepReachableNodes(env, d) && IsRootModule(d'.filename)
                             && PlanOf(env, FolderOf(env, d')) == Success(p)
      {
        if p in RootPlans(env, d.deps) {
          var d' :| d' in ReachableNodes(env, d.deps) && IsRootModule(d'.filename)
                    && PlanOf(env, FolderOf(env, d')) == Success(p);
          assert d' in DepReachableNodes(env, d);
        } else {
          assert IsRootModule(d.filename) && plan == Success(p);
          assert d in DepReachableNodes(env, d);
        }
      }
    }
  }

  /** Running again over an output that already holds every planned package
      links nothing and leaves the disk as it was. */
  lemma RerunLinksNothing(env: Env, deps: seq<Dep>, existing: set<Path>)
    requires forall p :: p in RootPlans(env, deps) ==> p.dest in existing
    ensures var r := Run(env, deps, existing);
      r.Success? ==> r.value.links == [] && r.value.linkedModules == [] && r.value.existing == existing
  {
    var r := Run(env, deps, existing);
    if r.Success? && |r.value.links| > 0 {
      assert r.value.links[0] in RootPlans(env, deps);
      assert false;
    }
  }

  /** A folder seen before does not stop the walk: the node's dependencies
      are walked from the unchanged state. */
  lemma SeenFolderStillRecurses(env: Env, d: Dep, st: State)
    requires !Skipped(env, d)
    requires FolderOf(env, d) in st.npmPaths
    ensures LinkDep(env, d, st) == LinkDeps(env, d.deps, st)
  {
  }

  /** Skipped nodes contribute nothing, and nothing below them is reached. */
  lemma SkippedContributesNothing(env: Env, d: Dep)
    requires Skipped(env, d)
    ensures DepReachableFolders(env, d) == {} && DepRootPlans(env, d) == {}
  {
  }

  /** `/node_modules/a/node_modules`: a directory that is itself a root
      module and the folder of package `a`, and that holds a file `x` whose
      path has two `node_modules` pieces. */
  const NestedDir: Path := "/" + PackageDir("a") + [Sep] + NodeModules

  lemma NestedDirIsRoot()
    ensures IsRootModule(NestedDir)
  {
    assert NestedDir[1..13] == NodeModules;
    assert MatchAt(NestedDir, 0);
    forall j | j != 0 ensures !MatchAt(NestedDir, j) {
      MatchHead(NestedDir, j);
    }
    SingleSegmentIsRoot(NestedDir, 0);
  }

  lemma NestedFileIsNotRoot()
    ensures !IsRootModule(NestedDir + [Sep] + "x")
  {
    var p := NestedDir + [Sep] + "x";
    assert p[1..13] == NodeModules;
    assert p[16..28] == NodeModules;
    assert MatchAt(p, 0) && MatchAt(p, 15);
    NestedIsNotRoot(p, 0, 15);
  }

  lemma NestedDirPlan(outputPath: Path)
    ensures Plan(outputPath, NestedDir) == Success(LinkPlan("/" + PackageDir("a"), JoinPath(outputPath, PackageDir("a"))))
  {
    var rest := [Sep] + NodeModules;
    assert NestedDir == "/" + PackageDir("a") + rest;
    assert NestedDir[1..13] == NodeModules;
    assert SegmentAt(NestedDir, 1);
    assert !SegmentAt(NestedDir, 0) by {
      OccurrenceHead(NestedDir, NodeModules, 0);
    }
    PlanShape(outputPath, "/", "a", rest);
  }

  /** `/node_modules`: the folder of a single-file package `foo.js`, which
      has no piece after `node_modules`. */
  const LooseDir: Path := "/" + NodeModules

  lemma LooseFileIsRoot()
    ensures IsRootModule(LooseDir + [Sep] + "foo.js")
  {
    var p := LooseDir + [Sep] + "foo.js";
    assert p[1..13] == NodeModules;
    assert MatchAt(p, 0);
    forall j | j != 0 ensures !MatchAt(p, j) {
      MatchHead(p, j);
    }
    SingleSegmentIsRoot(p, 0);
  }

  /** Under either reading, `/node_modules` has no package name. */
  lemma LooseDirHasNoPackage(planner: Planner, outputPath: Path)
    ensures PlanWith(planner, outputPath, LooseDir) == Failure(MissingPackageName(LooseDir))
  {
    assert LooseDir[1..] == NodeModules;
    assert !OccursAt(LooseDir, NodeModules, 0) by {
      OccurrenceHead(LooseDir, NodeModules, 0);
    }
    assert OccursAt(LooseDir, NodeModules, 1);
    assert IndexOf(LooseDir, NodeModules) == 1;
    assert SegmentIndexOf(LooseDir) == 1 by {
      assert !SegmentAt(LooseDir, 0);
      assert SegmentAt(LooseDir, 1);
    }
    assert FolderRelativePath(LooseDir, 1) == NodeModules;
    assert Sep !in NodeModules;
  }

  /** A single-file package `/node_modules/foo.js` ends the build: its
      filename is a root module, and its folder has no package name, so the
      TypeError of `linkNpmModule` aborts the run. */
  lemma SingleFilePackageFails(planner: Planner, outputPath: Path, existing: set<Path>)
    ensures var env := Env([], outputPath, {}, planner);
      Run(env, [Dep("foo", LooseDir + [Sep] + "foo.js", false, [])], existing)
        == Failure(MissingPackageName(LooseDir))
  {
    var env := Env([], outputPath, {}, planner);
    var d := Dep("foo", LooseDir + [Sep] + "foo.js", false, []);
    FolderOfFile({}, LooseDir, "foo.js");
    assert FolderOf(env, d) == LooseDir;
    LooseFileIsRoot();
    LooseDirHasNoPackage(planner, outputPath);
    LeafStep(env, d, Initial(existing));
    assert LinkDep(env, d, Initial(existing)) == Failure(MissingPackageName(LooseDir));
  }

  /** A node without dependencies is walked by its visit alone. */
  lemma LeafStep(env: Env, d: Dep, st: State)
    requires !Skipped(env, d) && d.deps == []
    ensures LinkDep(env, d, st) == Visit(env, d, st)
  {
    var r := Visit(env, d, st);
    if r.Success? {
      assert LinkDeps(env, d.deps, r.value) == Success(r.value);
    }
  }

  /** Two nodes are walked one after the other. */
  lemma PairStep(env: Env, a: Dep, b: Dep, st: State)
    ensures LinkDep(env, a, st).Success? ==> LinkDeps(env, [a, b], st) == LinkDep(env, b, LinkDep(env, a, st).value)
  {
    var r1 := LinkDep(env, a, st);
    if r1.Success? {
      assert [a, b][1..] == [b];
      assert [b][1..] == [];
      var r2 := LinkDep(env, b, r1.value);
      if r2.Success? {
        assert LinkDeps(env, [], r2.value) == r2;
      }
    }
  }

  /** Two leaf nodes sharing a folder, a file that is not a root module
      walked before a root-module node: the folder is recorded without a
      link, and the second node is passed over although its plan is a root
      plan. */
  lemma NonRootFirstHidesRoot(env: Env, file: Dep, dir: Dep, existing: set<Path>)
    requires !Skipped(env, file) && !Skipped(env, dir) && file.deps == [] && dir.deps == []
    requires FolderOf(env, file) == FolderOf(env, dir)
    requires !IsRootModule(file.filename) && IsRootModule(dir.filename)
    requires PlanOf(env, FolderOf(env, dir)).Success?
    ensures Run(env, [file, dir], existing) == Success(State([FolderOf(env, dir)], [], existing, []))
    ensures PlanOf(env, FolderOf(env, dir)).value in RootPlans(env, [file, dir])
  {
    LaterRootPlan(env, file, dir);
    var folder := FolderOf(env, dir);
    var st1 := State([folder], [], existing, []);
    var st0 := Initial(existing);
    assert LinkDep(env, file, st0) == Success(st1) by {
      assert st0.npmPaths == [] && st1 == st0.(npmPaths := st0.npmPaths + [folder]);
      LeafStep(env, file, st0);
    }
    assert LinkDep(env, dir, st1) == Success(st1) by {
      LeafStep(env, dir, st1);
    }
    assert LinkDeps(env, [file, dir], st0) == Success(st1) by {
      PairStep(env, file, dir, st0);
    }
  }

  lemma LaterRootPlan(env: Env, file: Dep, dir: Dep)
    requires !Skipped(env, dir) && IsRootModule(dir.filename) && PlanOf(env, FolderOf(env, dir)).Success?
    ensures PlanOf(env, FolderOf(env, dir)).value in RootPlans(env, [file, dir])
  {
    assert [file, dir][1..] == [dir];
    assert [dir][1..] == [];
    assert PlanOf(env, FolderOf(env, dir)).value in DepRootPlans(env, dir);
  }

  /** The same two nodes the other way round: the package is linked. */
  lemma RootFirstLinks(env: Env, file: Dep, dir: Dep, existing: set<Path>)
    requires !Skipped(env, file) && !Skipped(env, dir) && file.deps == [] && dir.deps == []
    requires FolderOf(env, file) == FolderOf(env, dir)
    requires IsRootModule(dir.filename)
    requires PlanOf(env, FolderOf(env, dir)).Success?
    requires PlanOf(env, FolderOf(env, dir)).value.dest !in existing
    ensures var plan := PlanOf(env, FolderOf(env, dir)).value;
      Run(env, [dir, file], existing) == Success(State([FolderOf(env, dir)], [plan.dest], existing + {plan.dest}, [plan]))
  {
    var plan := PlanOf(env, FolderOf(env, dir)).value;
    var folder := FolderOf(env, dir);
    var st1 := State([folder], [plan.dest], existing + {plan.dest}, [plan]);
    var st0 := Initial(existing);
    assert LinkDep(env, dir, st0) == Success(st1) by {
      var seen := State([folder], [], existing, []);
      assert st0.npmPaths == [] && seen == st0.(npmPaths := st0.npmPaths + [folder]);
      var r := LinkNpmModule(env.planner, env.outputPath, seen, folder);
      assert r == Success(st1) by {
        assert PlanWith(env.planner, env.outputPath, folder) == Success(plan);
        assert plan.dest !in seen.linkedModules && plan.dest !in seen.existing;
        assert r.Success?;
        assert r.value.npmPaths == [folder] && r.value.linkedModules == [plan.dest];
        assert r.value.existing == existing + {plan.dest} && r.value.links == [plan];
      }
      assert Visit(env, dir, st0) == r;
      LeafStep(env, dir, st0);
    }
    assert LinkDep(env, file, st1) == Success(st1) by {
      LeafStep(env, file, st1);
    }
    assert LinkDeps(env, [dir, file], st0) == Success(st1) by {
      PairStep(env, dir, file, st0);
    }
  }

  /** The directory and its file share the folder `NestedDir`; only the
      directory is a root module, and the folder plans package `a`. */
  lemma NestedNodes(outputPath: Path)
    ensures var env := Env([], outputPath, {NestedDir}, Intended);
      && FolderOf(env, Dep("x", NestedDir + [Sep] + "x", false, [])) == NestedDir
      && FolderOf(env, Dep("a", NestedDir, false, [])) == NestedDir
      && IsRootModule(NestedDir) && !IsRootModule(NestedDir + [Sep] + "x")
      && PlanOf(env, NestedDir) == Success(LinkPlan("/" + PackageDir("a"), JoinPath(outputPath, PackageDir("a"))))
  {
    var env := Env([], outputPath, {NestedDir}, Intended);
    assert FolderOf(env, Dep("x", NestedDir + [Sep] + "x", false, [])) == NestedDir by {
      DirnameOfChild(NestedDir, "x");
      assert |NestedDir + [Sep] + "x"| != |NestedDir|;
    }
    assert IsRootModule(NestedDir) by {
      NestedDirIsRoot();
    }
    assert !IsRootModule(NestedDir + [Sep] + "x") by {
      NestedFileIsNotRoot();
    }
    assert PlanOf(env, NestedDir) == Success(LinkPlan("/" + PackageDir("a"), JoinPath(outputPath, PackageDir("a")))) by {
      NestedDirPlan(outputPath);
    }
  }

  /** For the directory `/node_modules/a/node_modules` and its file `x`,
      walking the file first links nothing although package `a` is a root
      plan. */
  lemma FileFirstLinksNothing(outputPath: Path)
    ensures var env := Env([], outputPath, {NestedDir}, Intended);
      var file := Dep("x", NestedDir + [Sep] + "x", false, []);
      var dir := Dep("a", NestedDir, false, []);
      && Run(env, [file, dir], {}) == Success(State([NestedDir], [], {}, []))
      && LinkPlan("/" + PackageDir("a"), JoinPath(outputPath, PackageDir("a"))) in RootPlans(env, [file, dir])
  {
    var env := Env([], outputPath, {NestedDir}, Intended);
    NestedNodes(outputPath);
    NonRootFirstHidesRoot(env, Dep("x", NestedDir + [Sep] + "x", false, []), Dep("a", NestedDir, false, []), {});
  }
}
