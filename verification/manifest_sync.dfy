/** From the manifests to `LocalHalf`: the projects that are synced come from a merged
    manifest, so their paths are clean and distinct. */
module ManifestSync {
  import opened Text
  import opened LexicalPath
  import opened Manifests
  import opened SyncScheduler
  import Tree = ProjectTree

  /** A project as the tree of projects knows it. */
  function AsSynced(p: Manifests.Project): Tree.Project {
    Tree.Project(p.name, p.path)
  }

  /** workspace/repo-workspace.go, `loadProjects` and `GetProjects` without arguments: the
      projects of the manifest for which `selected` holds, which stands for groups and existence. */
  function Selected(ps: seq<Manifests.Project>, selected: Manifests.Project -> bool): seq<Tree.Project> {
    if ps == [] then []
    else
      (if selected(ps[0]) then [AsSynced(ps[0])] else []) + Selected(ps[1..], selected)
  }

  /** The projects that a sync of these manifests deals with. */
  function ToSync(ms: seq<Manifest>, selected: Manifests.Project -> bool): seq<Tree.Project>
    requires MergeManifests(ms).Ok?
  {
    Selected(AllProjects(MergeManifests(ms).value), selected)
  }

  lemma OneMorePath(p: Tree.Project, after: seq<Tree.Project>)
    requires Distinct(Tree.PathsOf(after)) && forall q | q in after :: q.path != p.path
    ensures Distinct(Tree.PathsOf([p] + after))
  {
    assert Tree.PathsOf([p] + after) == [p.path] + Tree.PathsOf(after);
    forall x | x in Tree.PathsOf(after) ensures x != p.path {
      var k :| 0 <= k < |after| && Tree.PathsOf(after)[k] == x;
      assert after[k] in after;
    }
    DistinctCons(p.path, Tree.PathsOf(after));
  }

  lemma FirstPath(ps: seq<Manifests.Project>)
    requires ps != [] && AllFlat(ps) && Distinct(ProjectPaths(ps))
    ensures Clean(ps[0].path) == ps[0].path && ps[0].path !in ProjectPaths(ps[1..])
    ensures AllFlat(ps[1..]) && Distinct(ProjectPaths(ps[1..]))
    ensures ProjectPaths(ps) == [ps[0].path] + ProjectPaths(ps[1..])
  {
    hide Clean;
    assert IsFlat(ps[0]);
    assert ps == [ps[0]] + ps[1..];
    PathsCons(ps[0], ps[1..]);
    assert ProjectPaths(ps)[1..] == ProjectPaths(ps[1..]);
    DistinctTail(ps[0].path, ProjectPaths(ps[1..]));
  }

  lemma {:induction false} SelectedKeeps(ps: seq<Manifests.Project>, selected: Manifests.Project -> bool)
    requires AllFlat(ps) && Distinct(ProjectPaths(ps))
    ensures var projects := Selected(ps, selected);
      && Distinct(Tree.PathsOf(projects))
      && (forall p | p in projects :: Clean(p.path) == p.path)
      && (forall p | p in projects :: p.path in ProjectPaths(ps))
  {
    hide Clean, AllFlat, Distinct, ProjectPaths, Tree.PathsOf;
    if ps == [] {
      assert Distinct(Tree.PathsOf([])) by { NoPaths(); }
    } else {
      FirstPath(ps);
      SelectedKeeps(ps[1..], selected);
      var p, after := AsSynced(ps[0]), Selected(ps[1..], selected);
      if selected(ps[0]) {
        OneMorePath(p, after);
      } else {
        assert [] + after == after;
      }
    }
  }

  lemma NoPaths()
    ensures Distinct(Tree.PathsOf([]))
  {
  }

  /** Whatever the manifests and the selection, the paths that are synced are clean and distinct;
      they are what the scheduler can deal with exactly when none of them is "/". */
  lemma MergedPathsAreClean(ms: seq<Manifest>, selected: Manifests.Project -> bool)
    requires MergeManifests(ms).Ok?
    ensures forall p | p in ToSync(ms, selected) :: Clean(p.path) == p.path
    ensures Distinct(Tree.PathsOf(ToSync(ms, selected)))
    ensures CleanDistinct(ToSync(ms, selected)) <==> forall p | p in ToSync(ms, selected) :: p.path != "/"
  {
    hide Clean, Selected, AllProjects, MergeManifests, AllFlat, ProjectPaths, Distinct;
    MergedFlat(ms);
    SelectedKeeps(AllProjects(MergeManifests(ms).value), selected);
    SlashOnly(ToSync(ms, selected));
  }

  lemma MergedFlat(ms: seq<Manifest>)
    requires MergeManifests(ms).Ok?
    ensures var ps := AllProjects(MergeManifests(ms).value); AllFlat(ps) && Distinct(ProjectPaths(ps))
  {
    hide Clean, FlattenAll, MergeManifests, IsFlat, RemoteNamesDistinct, Distinct;
    var merged := MergeManifests(ms).value.projects;
    MergedManifestsAreConsolidated(ms);
    FlattenAgain(merged);
    RetrimFlat(merged);
    RetrimKeepsPaths([], merged);
    assert [] + RetrimAll(merged) == RetrimAll(merged) && [] + merged == merged;
  }

  lemma SlashOnly(projects: seq<Tree.Project>)
    requires forall p | p in projects :: Clean(p.path) == p.path
    ensures Tree.NoSlashEnds(Tree.PathsOf(projects)) <==> forall p | p in projects :: p.path != "/"
  {
    hide Clean;
    var paths := Tree.PathsOf(projects);
    forall p | p in projects ensures Tree.EndsInSlash(p.path) <==> p.path == "/" { CleanEndsInSlash(p.path); }
    assert forall k | 0 <= k < |projects| :: paths[k] == projects[k].path && projects[k] in projects;
  }

  /** At distinct paths, a project is dealt with exactly when it is selected. */
  lemma {:induction false} SelectedExactly(ps: seq<Manifests.Project>, selected: Manifests.Project -> bool,
                                           p: Manifests.Project)
    requires AllFlat(ps) && Distinct(ProjectPaths(ps)) && p in ps
    ensures AsSynced(p) in Selected(ps, selected) <==> selected(p)
  {
    hide Clean, AllFlat, Distinct, ProjectPaths;
    var first, rest := ps[0], ps[1..];
    FirstPath(ps);
    SelectedKeeps(rest, selected);
    assert AsSynced(first) !in Selected(rest, selected);
    if p in rest {
      SelectedExactly(rest, selected, p);
      PathIn(rest, p);
    }
  }

  lemma PathIn(ps: seq<Manifests.Project>, p: Manifests.Project)
    requires p in ps
    ensures p.path in ProjectPaths(ps)
  {
    var k :| 0 <= k < |ps| && ps[k] == p;
    assert ProjectPaths(ps)[k] == p.path;
  }

  /** From the manifests to the end of a sync, in every interleaving: unless a project is at "/",
      each project of the merged manifest has been started once and has returned once if it is
      selected, has never been started otherwise, and the channel is closed; with a project at
      "/", main never gets past `Wait`. */
  lemma ManifestIsSynced(ms: seq<Manifest>, selected: Manifests.Project -> bool, jobs: int, schedule: seq<Action>,
                         s: State)
    requires MergeManifests(ms).Ok?
    requires var projects := ToSync(ms, selected);
      Reached(projects, jobs, schedule, s) && Stuck(LocalHalf(projects, jobs), s)
    ensures if forall p | p in ToSync(ms, selected) :: p.path != "/" then
              && s.main.Closed?
              && forall p | p in AllProjects(MergeManifests(ms).value) ::
                   Started(IsProject(AsSynced(p)), s.log) == (if selected(p) then 1 else 0)
                   && (selected(p) ==> Total(OfReturn(p.path), s.log) == 1)
            else s.main.Waiting? && s.counter > 0
  {
    hide Reached, Stuck, LocalHalf, ToSync, Started, Total, CleanDistinct, Clean, AllProjects, MergeManifests;
    var projects := ToSync(ms, selected);
    MergedPathsAreClean(ms, selected);
    ClosesForClean(projects, jobs, schedule, s);
    if forall p | p in projects :: p.path != "/" {
      forall p | p in AllProjects(MergeManifests(ms).value)
        ensures Started(IsProject(AsSynced(p)), s.log) == (if selected(p) then 1 else 0)
                && (selected(p) ==> Total(OfReturn(p.path), s.log) == 1)
      {
        ToSyncExactly(ms, selected, p);
        if selected(p) {
          EveryProjectOnce(projects, jobs, schedule, s, AsSynced(p));
        } else {
          NeverStarted(projects, jobs, schedule, s, AsSynced(p));
        }
      }
    }
  }

  lemma ToSyncExactly(ms: seq<Manifest>, selected: Manifests.Project -> bool, p: Manifests.Project)
    requires MergeManifests(ms).Ok? && p in AllProjects(MergeManifests(ms).value)
    ensures AsSynced(p) in ToSync(ms, selected) <==> selected(p)
  {
    hide Clean, Selected, AllProjects, MergeManifests, AllFlat, ProjectPaths, Distinct;
    MergedFlat(ms);
    SelectedExactly(AllProjects(MergeManifests(ms).value), selected, p);
  }

  lemma NeverStarted(projects: seq<Tree.Project>, jobs: int, schedule: seq<Action>, s: State, p: Tree.Project)
    requires Reached(projects, jobs, schedule, s) && p !in projects
    ensures Started(IsProject(p), s.log) == 0
  {
    hide Reached, LocalHalf, Total;
    forall k | 0 <= k < |s.log| ensures OfEvent(IsProject(p))(s.log[k]) == 0 {
      if s.log[k].Start? { OnlyProjectsStart(projects, jobs, schedule, s, k); }
    }
    TotalZero(OfEvent(IsProject(p)), s.log);
  }
}
