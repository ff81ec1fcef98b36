/** manifest/manifest.go `ProjectHandle` and workspace/repo-workspace.go `freezeProject`:
    visiting the nested projects of a manifest, and freezing their revisions. */
module ManifestVisit {
  import opened Text
  import opened LexicalPath
  import opened Manifests
  import opened ManifestLoad

  // --------------------------------------------------------------- visiting

  /** The calls `Process(project, parentDir)` made, and whether the walk got through. */
  datatype Visits = Visits(calls: seq<(Project, string)>, ok: bool)

  /** The directory handed to the children of `p`, itself visited with `dir`. */
  function Below(dir: string, p: Project): string {
    if dir == "" then p.path else JoinPath(dir, p.path)
  }

  function Execute(p: Project, dir: string, depth: nat): Visits
    decreases p
  {
    if depth > MAX_RECURSIVE_DEPTH then Visits([], false)
    else
      var below := ExecuteAll(p.projects, Below(dir, p), depth + 1);
      Visits([(p, dir)] + below.calls, below.ok)
  }

  function ExecuteAll(ps: seq<Project>, dir: string, depth: nat): Visits
    decreases ps
  {
    if ps == [] then Visits([], true)
    else
      var first := Execute(ps[0], dir, depth);
      if !first.ok then first
      else
        var rest := ExecuteAll(ps[1..], dir, depth);
        Visits(first.calls + rest.calls, rest.ok)
  }

  /** The nesting depth of a forest. */
  function Height(ps: seq<Project>): nat
    decreases ps
  {
    if ps == [] then 0
    else
      var first, rest := 1 + Height(ps[0].projects), Height(ps[1..]);
      if first > rest then first else rest
  }

  /** The walk gets through exactly when no project is nested below the depth bound. */
  lemma {:induction false} ExecuteSucceeds(ps: seq<Project>, dir: string, depth: nat)
    requires depth <= MAX_RECURSIVE_DEPTH + 1
    ensures ExecuteAll(ps, dir, depth).ok <==> depth + Height(ps) <= MAX_RECURSIVE_DEPTH + 1
    decreases ps
  {
    hide Below;
    if ps != [] {
      if depth <= MAX_RECURSIVE_DEPTH { ExecuteSucceeds(ps[0].projects, Below(dir, ps[0]), depth + 1); }
      ExecuteSucceeds(ps[1..], dir, depth);
    }
  }

  /** The place a call is about: what `freezeProject.Process` looks the checkout up by. */
  function Place(call: (Project, string)): string {
    Below(call.1, call.0)
  }

  function Places(calls: seq<(Project, string)>): (r: seq<string>)
    ensures |r| == |calls|
  {
    seq(|calls|, k requires 0 <= k < |calls| => Place(calls[k]))
  }

  lemma PlacesConcat(a: seq<(Project, string)>, b: seq<(Project, string)>)
    ensures Places(a + b) == Places(a) + Places(b)
  {
  }

  lemma PathsConcat(a: seq<Project>, b: seq<Project>)
    ensures ProjectPaths(a + b) == ProjectPaths(a) + ProjectPaths(b)
  {
  }

  /** The directory a walk is in, and the parent flattening is under, are the same place. */
  ghost predicate SamePlace(dir: string, parent: Option<Project>) {
    if parent.None? then dir == "" else dir == parent.value.path && dir != "" && Clean(dir) == dir
  }

  lemma PlacedHere(dir: string, parent: Option<Project>, p: Project)
    requires SamePlace(dir, parent) && Clean(p.path) == p.path
    ensures Placed(parent, p).path == Below(dir, p)
    ensures SamePlace(Below(dir, p), Some(Placed(parent, p)))
  {
    PlacedIsClean(parent, p);
    if parent.Some? { CleanIdempotent(dir + "/" + p.path); }
  }

  /** A walk that gets through visits the projects in the order `AllProjects` lists them,
      each at its flattened path. */
  lemma {:induction false} VisitsAreFlattened(ps: seq<Project>, dir: string, parent: Option<Project>, depth: nat)
    requires FixedUp(ps) && SamePlace(dir, parent) && ExecuteAll(ps, dir, depth).ok
    ensures Places(ExecuteAll(ps, dir, depth).calls) == ProjectPaths(FlattenAll(parent, ps))
    decreases ps
  {
    hide Placed, Below, Clean, SamePlace;
    if ps != [] {
      var p, q := ps[0], Placed(parent, ps[0]);
      var below := ExecuteAll(p.projects, Below(dir, p), depth + 1);
      PlacedHere(dir, parent, p);
      VisitsAreFlattened(p.projects, Below(dir, p), Some(q), depth + 1);
      VisitsAreFlattened(ps[1..], dir, parent, depth);
      PlacesConcat([(p, dir)], below.calls);
      PlacesConcat(Execute(p, dir, depth).calls, ExecuteAll(ps[1..], dir, depth).calls);
      PathsConcat([q.(projects := [])], FlattenAll(Some(q), p.projects));
      PathsConcat(Flatten(parent, p), FlattenAll(parent, ps[1..]));
    }
  }

  // --------------------------------------------------------------- freezing

  /** A checked-out project as the workspace knows it; no `head` when it does not resolve. */
  datatype Checkout = Checkout(head: Option<string>, upstream: string, revision: string)

  type Workspace = map<string, Checkout>

  /** `freezeProject.Process`, for the project checked out at `place`. */
  function FreezeAt(ws: Workspace, fillUpstream: bool, place: string, p: Project): Project {
    if place !in ws || ws[place].head.None? then p
    else
      var c := ws[place];
      var upstream := if !fillUpstream then p.attrs.upstream else if c.upstream != "" then c.upstream else c.revision;
      p.(attrs := p.attrs.(upstream := upstream, revision := c.head.value))
  }

  function Freeze(ws: Workspace, fill: bool, p: Project, dir: string, depth: nat): Result<Project>
    decreases p
  {
    if depth > MAX_RECURSIVE_DEPTH then Err(TooDeep)
    else
      match FreezeAll(ws, fill, p.projects, Below(dir, p), depth + 1)
      case Err(e) => Err(e)
      case Ok(below) => Ok(FreezeAt(ws, fill, Below(dir, p), p).(projects := below))
  }

  /** `FreezeManifest`: freezes every project in place, in visiting order. */
  function FreezeAll(ws: Workspace, fill: bool, ps: seq<Project>, dir: string, depth: nat): Result<seq<Project>>
    decreases ps
  {
    if ps == [] then Ok([])
    else
      match Freeze(ws, fill, ps[0], dir, depth)
      case Err(e) => Err(e)
      case Ok(p) =>
        match FreezeAll(ws, fill, ps[1..], dir, depth)
        case Err(e) => Err(e)
        case Ok(rest) => Ok([p] + rest)
  }

  lemma {:induction false} FreezeSucceeds(ws: Workspace, fill: bool, ps: seq<Project>, dir: string, depth: nat)
    ensures FreezeAll(ws, fill, ps, dir, depth).Ok? <==> ExecuteAll(ps, dir, depth).ok
    decreases ps
  {
    hide Below, FreezeAt;
    if ps != [] {
      FreezeSucceeds(ws, fill, ps[0].projects, Below(dir, ps[0]), depth + 1);
      FreezeSucceeds(ws, fill, ps[1..], dir, depth);
    }
  }

  /** Freezes every project of a flat list at its own path. */
  function FreezeFlat(ws: Workspace, fill: bool, ps: seq<Project>): (r: seq<Project>)
    ensures |r| == |ps|
  {
    seq(|ps|, k requires 0 <= k < |ps| => FreezeAt(ws, fill, ps[k].path, ps[k]))
  }

  lemma FreezeFlatConcat(ws: Workspace, fill: bool, a: seq<Project>, b: seq<Project>)
    ensures FreezeFlat(ws, fill, a + b) == FreezeFlat(ws, fill, a) + FreezeFlat(ws, fill, b)
  {
  }

  /** Two parents that flatten their children alike. */
  ghost predicate Alike(a: Option<Project>, b: Option<Project>) {
    if a.None? then b.None? else b.Some? && a.value.path == b.value.path && a.value.name == b.value.name
  }

  /** Freezing the nested manifest and then flattening it is flattening it first and freezing
      each project at its flattened path: no project is missed, mixed up or moved. */
  lemma {:induction false} FreezeThenFlatten(ws: Workspace, fill: bool, ps: seq<Project>, dir: string,
                                             a: Option<Project>, b: Option<Project>, depth: nat)
    requires FixedUp(ps) && SamePlace(dir, a) && Alike(a, b)
    requires FreezeAll(ws, fill, ps, dir, depth).Ok?
    ensures FlattenAll(b, FreezeAll(ws, fill, ps, dir, depth).value) == FreezeFlat(ws, fill, FlattenAll(a, ps))
    decreases ps
  {
    hide Below, Clean, SamePlace, FreezeAt, Placed;
    if ps != [] {
      var p := ps[0];
      var here, q := Below(dir, p), Placed(a, p);
      var children := FreezeAll(ws, fill, p.projects, here, depth + 1).value;
      var p' := FreezeAt(ws, fill, here, p).(projects := children);
      var q' := Placed(b, p');
      var rest := FreezeAll(ws, fill, ps[1..], dir, depth).value;
      PlacedHere(dir, a, p);
      PlacedFrozen(ws, fill, here, a, b, p, children);
      FreezeThenFlatten(ws, fill, p.projects, here, Some(q), Some(q'), depth + 1);
      FreezeThenFlatten(ws, fill, ps[1..], dir, a, b, depth);
      assert ([p'] + rest)[1..] == rest;
      FreezeFlatConcat(ws, fill, [q.(projects := [])], FlattenAll(Some(q), p.projects));
      FreezeFlatConcat(ws, fill, Flatten(a, p), FlattenAll(a, ps[1..]));
      assert FreezeFlat(ws, fill, [q.(projects := [])]) == [q'.(projects := [])];
    }
  }

  lemma PlacedFrozen(ws: Workspace, fill: bool, here: string, a: Option<Project>, b: Option<Project>, p: Project,
                     children: seq<Project>)
    requires Alike(a, b) && here == Placed(a, p).path
    ensures var q, q' := Placed(a, p), Placed(b, FreezeAt(ws, fill, here, p).(projects := children));
            && Alike(Some(q), Some(q'))
            && FreezeAt(ws, fill, q.path, q.(projects := [])) == q'.(projects := [])
  {
    hide Clean, JoinPath, TrimSuffix;
  }

  /** `q` is `p` pinned to the commit that is checked out at its path.  The upstream is kept, or
      filled in with that of the checkout or, if it has none, its revision.  Where nothing is
      checked out, or `HEAD` does not resolve, `p` stays as it is. */
  predicate FrozenFrom(ws: Workspace, fill: bool, p: Project, q: Project) {
    if p.path in ws && ws[p.path].head.Some? then
      var c := ws[p.path];
      && q == p.(attrs := p.attrs.(revision := q.attrs.revision, upstream := q.attrs.upstream))
      && Some(q.attrs.revision) == c.head
      && (!fill ==> q.attrs.upstream == p.attrs.upstream)
      && (fill && c.upstream != "" ==> q.attrs.upstream == c.upstream)
      && (fill && c.upstream == "" ==> q.attrs.upstream == c.revision)
    else q == p
  }

  /** The whole manifest: freezing succeeds exactly when no project is nested more than eleven
      deep, and then the frozen manifest lists, project by project, what the original lists. */
  lemma FreezeManifest(ws: Workspace, fill: bool, m: Manifest)
    requires FixedUp(m.projects)
    ensures FreezeAll(ws, fill, m.projects, "", 0).Ok? <==> Height(m.projects) <= 11
    ensures Height(m.projects) <= 11 ==>
              var frozen := m.(projects := FreezeAll(ws, fill, m.projects, "", 0).value);
              && AllProjects(frozen) == FreezeFlat(ws, fill, AllProjects(m))
              && Places(ExecuteAll(m.projects, "", 0).calls) == ProjectPaths(AllProjects(m))
              && |AllProjects(frozen)| == |AllProjects(m)|
              && forall k | 0 <= k < |AllProjects(m)| :: FrozenFrom(ws, fill, AllProjects(m)[k], AllProjects(frozen)[k])
  {
    FreezeSucceeds(ws, fill, m.projects, "", 0);
    ExecuteSucceeds(m.projects, "", 0);
    if Height(m.projects) <= 11 {
      FreezeThenFlatten(ws, fill, m.projects, "", None, None, 0);
      VisitsAreFlattened(m.projects, "", None, 0);
    }
  }
}
