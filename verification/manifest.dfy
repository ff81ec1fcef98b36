/** manifest/manifest.go: fixing up, flattening, visiting and merging manifests. */
module Manifests {
  import opened Text
  import opened LexicalPath

  // ------------------------------------------------------------------- data

  datatype FilePair = FilePair(src: string, dest: string)

  /** The attributes of a project that flattening copies unchanged. */
  datatype Attributes = Attributes(
    remoteName: string, revision: string, destBranch: string, groups: string, rebase: string,
    syncC: string, syncS: string, syncTags: string, upstream: string, cloneDepth: string, forcePath: string,
    annotations: seq<string>, copyFiles: seq<FilePair>, linkFiles: seq<FilePair>)

  datatype Project = Project(name: string, path: string, attrs: Attributes, projects: seq<Project>)

  datatype Remote = Remote(
    name: string, alias: string, fetch: string, pushURL: string, overrides: bool,
    review: string, revision: string, kind: string)

  datatype Default = Default(
    remoteName: string, revision: string, destBranch: string, upstream: string, overrides: bool,
    syncJ: int, syncC: string, syncS: string, syncTags: string)

  datatype Server = Server(overrides: bool, url: string)

  datatype Extend = Extend(name: string, path: string, groups: string, revision: string)

  datatype Manifest = Manifest(
    notice: string, remotes: seq<Remote>, defaults: Option<Default>, server: Option<Server>,
    projects: seq<Project>, removals: seq<string>, extensions: seq<Extend>, includes: seq<string>)

  const EMPTY := Manifest("", [], None, None, [], [], [], [])

  datatype Error =
    | EmptyAttribute
    | DuplicateNotice | DuplicateRemote | DuplicateDefault | DuplicateServer | DuplicatePath
    | TooDeep | Unreadable | Unresolved

  datatype Result<+T> = Ok(value: T) | Err(error: Error)

  // ----------------------------------------------------------------- fixup

  function Slashes(s: string): (r: string)
    ensures |r| == |s|
  {
    seq(|s|, k requires 0 <= k < |s| => if s[k] == '\\' then '/' else s[k])
  }

  function CleanPath(name: string): string {
    Clean(Slashes(TrimSuffix(name, ".git")))
  }

  predicate FilesGiven(files: seq<FilePair>) {
    forall k | 0 <= k < |files| :: files[k].src != "" && files[k].dest != ""
  }

  function FixupProject(p: Project): Result<Project>
    decreases p
  {
    if p.name == "" then Err(EmptyAttribute)
    else
      var name := CleanPath(p.name);
      var path := if p.path == "" then name else CleanPath(p.path);
      if !FilesGiven(p.attrs.copyFiles) || !FilesGiven(p.attrs.linkFiles) then Err(EmptyAttribute)
      else
        match FixupProjects(p.projects)
        case Err(e) => Err(e)
        case Ok(ps) => Ok(p.(name := name, path := path, projects := ps))
  }

  function FixupProjects(ps: seq<Project>): Result<seq<Project>>
    decreases ps
  {
    if ps == [] then Ok([])
    else
      match FixupProject(ps[0])
      case Err(e) => Err(e)
      case Ok(p) =>
        match FixupProjects(ps[1..])
        case Err(e) => Err(e)
        case Ok(rest) => Ok([p] + rest)
  }

  function FixupExtend(e: Extend): Extend {
    var name := CleanPath(e.name);
    e.(name := name, path := if e.path == "" then name else CleanPath(e.path))
  }

  function Fixup(m: Manifest): Result<Manifest> {
    if exists k | 0 <= k < |m.remotes| :: m.remotes[k].name == "" then Err(EmptyAttribute)
    else
      match FixupProjects(m.projects)
      case Err(e) => Err(e)
      case Ok(ps) =>
        if "" in m.removals || (exists k | 0 <= k < |m.extensions| :: m.extensions[k].name == "")
            || "" in m.includes then
          Err(EmptyAttribute)
        else
          Ok(m.(projects := ps,
                removals := seq(|m.removals|, k requires 0 <= k < |m.removals| => CleanPath(m.removals[k])),
                extensions := seq(|m.extensions|, k requires 0 <= k < |m.extensions| => FixupExtend(m.extensions[k]))))
  }

  /** What fixup establishes at every depth: clean names and paths. */
  predicate FixedUp(ps: seq<Project>)
    decreases ps
  {
    ps != [] ==>
      && Clean(ps[0].name) == ps[0].name && Clean(ps[0].path) == ps[0].path
      && FixedUp(ps[0].projects) && FixedUp(ps[1..])
  }

  lemma {:induction false} FixupFixesUp(ps: seq<Project>)
    requires FixupProjects(ps).Ok?
    ensures FixedUp(FixupProjects(ps).value)
    decreases ps
  {
    if ps != [] {
      var p, q, rest := ps[0], FixupProject(ps[0]).value, FixupProjects(ps[1..]).value;
      FixupFixesUp(p.projects);
      FixupFixesUp(ps[1..]);
      CleanIdempotent(Slashes(TrimSuffix(p.name, ".git")));
      CleanIdempotent(Slashes(TrimSuffix(p.path, ".git")));
      assert ([q] + rest)[1..] == rest;
    }
  }

  /** No name is missing at any depth, nor anything about files to copy or to link. */
  predicate AllGiven(ps: seq<Project>)
    decreases ps
  {
    ps != [] ==>
      && ps[0].name != ""
      && (forall file | file in ps[0].attrs.copyFiles + ps[0].attrs.linkFiles :: file.src != "" && file.dest != "")
      && AllGiven(ps[0].projects) && AllGiven(ps[1..])
  }

  /** `qs` is `ps` with names and paths cleaned, and an empty path filled in, at every depth. */
  predicate CleanedUp(ps: seq<Project>, qs: seq<Project>)
    decreases ps
  {
    if ps == [] || qs == [] then ps == qs
    else
      && qs[0].attrs == ps[0].attrs
      && qs[0].name == CleanPath(ps[0].name)
      && qs[0].path == (if ps[0].path == "" then qs[0].name else CleanPath(ps[0].path))
      && CleanedUp(ps[0].projects, qs[0].projects) && CleanedUp(ps[1..], qs[1..])
  }

  /** Fixing up fails exactly when something is missing; otherwise it cleans names and paths,
      project by project, and changes nothing else. */
  lemma {:induction false} FixupExactly(ps: seq<Project>)
    ensures FixupProjects(ps).Ok? <==> AllGiven(ps)
    ensures AllGiven(ps) ==> CleanedUp(ps, FixupProjects(ps).value)
    decreases ps
  {
    hide CleanPath, FilesGiven;
    if ps != [] {
      FilesAreGiven(ps[0].attrs.copyFiles, ps[0].attrs.linkFiles);
      FixupExactly(ps[0].projects);
      FixupExactly(ps[1..]);
      if AllGiven(ps) {
        var q, rest := FixupProject(ps[0]).value, FixupProjects(ps[1..]).value;
        assert ([q] + rest)[1..] == rest;
      }
    }
  }

  lemma FilesAreGiven(a: seq<FilePair>, b: seq<FilePair>)
    ensures FilesGiven(a) && FilesGiven(b) <==> forall file | file in a + b :: file.src != "" && file.dest != ""
  {
    if forall file | file in a + b :: file.src != "" && file.dest != "" {
      forall k | 0 <= k < |a| ensures a[k].src != "" && a[k].dest != "" { assert a[k] in a + b; }
      forall k | 0 <= k < |b| ensures b[k].src != "" && b[k].dest != "" { assert b[k] in a + b; }
    }
  }

  /** A name as fixup leaves it, with nothing left to trim. */
  predicate Neat(name: string) {
    name != "" && Clean(name) == name && !HasSuffix(name, ".git") && '\\' !in name
  }

  predicate AllNeat(ps: seq<Project>)
    decreases ps
  {
    ps != [] ==> Neat(ps[0].name) && Neat(ps[0].path) && AllNeat(ps[0].projects) && AllNeat(ps[1..])
  }

  lemma NeatStays(name: string)
    requires Neat(name)
    ensures CleanPath(name) == name
  {
    hide Clean;
    assert Slashes(name) == name;
  }

  lemma {:induction false} CleanedNeat(ps: seq<Project>, qs: seq<Project>)
    requires AllNeat(ps) && CleanedUp(ps, qs)
    ensures qs == ps
    decreases ps
  {
    hide CleanPath, Neat;
    if ps != [] && qs != [] {
      NeatStays(ps[0].name);
      NeatStays(ps[0].path);
      CleanedNeat(ps[0].projects, qs[0].projects);
      CleanedNeat(ps[1..], qs[1..]);
      assert ps[0].path != "" by { NeatGiven(ps[0].path); }
      assert qs == [qs[0]] + qs[1..] && ps == [ps[0]] + ps[1..];
    }
  }

  lemma NeatGiven(name: string)
    requires Neat(name)
    ensures name != ""
  {
  }

  /** Nothing is missing in the manifest, at any depth. */
  ghost predicate Given(m: Manifest) {
    && (forall r | r in m.remotes :: r.name != "") && AllGiven(m.projects) && "" !in m.removals
    && (forall e | e in m.extensions :: e.name != "") && "" !in m.includes
  }

  /** The whole manifest: exactly when it is accepted; and one that has nothing to trim, clean
      or fill in stays as it is. */
  lemma ManifestFixup(m: Manifest)
    ensures Fixup(m).Ok? <==> Given(m)
    ensures Given(m) ==> var fixed := Fixup(m).value;
      && CleanedUp(m.projects, fixed.projects)
      && fixed == m.(projects := fixed.projects, removals := fixed.removals, extensions := fixed.extensions)
      && |fixed.removals| == |m.removals| && |fixed.extensions| == |m.extensions|
      && (forall k | 0 <= k < |m.removals| :: fixed.removals[k] == CleanPath(m.removals[k]))
      && (forall k | 0 <= k < |m.extensions| ::
            var e, e' := m.extensions[k], fixed.extensions[k];
            && e'.name == CleanPath(e.name) && e'.groups == e.groups && e'.revision == e.revision
            && e'.path == if e.path == "" then e'.name else CleanPath(e.path))
    ensures (Given(m) && AllNeat(m.projects) && (forall name | name in m.removals :: Neat(name))
             && (forall e | e in m.extensions :: Neat(e.name) && Neat(e.path))) ==> Fixup(m) == Ok(m)
  {
    hide CleanPath, Neat, AllGiven, CleanedUp;
    FixupExactly(m.projects);
    assert (exists k | 0 <= k < |m.remotes| :: m.remotes[k].name == "") <==> exists r | r in m.remotes :: r.name == "";
    assert (exists k | 0 <= k < |m.extensions| :: m.extensions[k].name == "")
      <==> exists e | e in m.extensions :: e.name == "";
    if Given(m) && AllNeat(m.projects) && (forall name | name in m.removals :: Neat(name))
       && (forall e | e in m.extensions :: Neat(e.name) && Neat(e.path)) {
      var fixed := Fixup(m).value;
      CleanedNeat(m.projects, fixed.projects);
      forall k | 0 <= k < |m.removals| ensures fixed.removals[k] == m.removals[k] { NeatStays(m.removals[k]); }
      forall k | 0 <= k < |m.extensions| ensures fixed.extensions[k] == m.extensions[k] {
        assert m.extensions[k] in m.extensions;
        NeatStays(m.extensions[k].name);
        NeatStays(m.extensions[k].path);
        NeatGiven(m.extensions[k].path);
      }
      assert fixed.removals == m.removals && fixed.extensions == m.extensions;
    }
  }

  /** Cleaning a name: both slashes separate, one ".git" at the end goes. */
  lemma CleanPathMeans(parts: seq<string>)
    requires parts != [] && forall k | 0 <= k < |parts| :: '\\' !in parts[k]
    ensures Slashes(Join(parts, '\\')) == Join(parts, '/') == Slashes(Join(parts, '/'))
    ensures CleanPath(Join(parts, '\\') + ".git") == CleanPath(Join(parts, '/') + ".git") == Clean(Join(parts, '/'))
  {
    SlashesJoin(parts);
    TrimGit(Join(parts, '\\'));
    TrimGit(Join(parts, '/'));
  }

  lemma TrimGit(s: string)
    ensures TrimSuffix(s + ".git", ".git") == s
  {
  }

  lemma {:induction false} SlashesJoin(parts: seq<string>)
    requires forall k | 0 <= k < |parts| :: '\\' !in parts[k]
    ensures Slashes(Join(parts, '\\')) == Join(parts, '/') == Slashes(Join(parts, '/'))
  {
    if parts != [] {
      assert Slashes(parts[0]) == parts[0];
      if |parts| > 1 {
        var rest := parts[1..];
        SlashesJoin(rest);
        assert Slashes(parts[0] + ['\\'] + Join(rest, '\\')) == parts[0] + ['/'] + Slashes(Join(rest, '\\'));
        assert Slashes(parts[0] + ['/'] + Join(rest, '/')) == parts[0] + ['/'] + Slashes(Join(rest, '/'));
      }
    }
  }

  // ------------------------------------------------------------- flattening

  /** The head of `AllProjects`: path and name below the parent's, one ".git" trimmed. */
  function Placed(parent: Option<Project>, p: Project): Project {
    var path := if parent.Some? && parent.value.path != "" then JoinPath(parent.value.path, p.path) else p.path;
    var name := if parent.Some? && parent.value.name != "" then JoinPath(parent.value.name, p.name) else p.name;
    p.(path := Clean(path), name := Clean(TrimSuffix(name, ".git")))
  }

  /** `AllProjects`: the project without its children, then the children's projects. */
  function Flatten(parent: Option<Project>, p: Project): seq<Project>
    decreases p
  {
    var q := Placed(parent, p);
    [q.(projects := [])] + FlattenAll(Some(q), p.projects)
  }

  function FlattenAll(parent: Option<Project>, ps: seq<Project>): seq<Project>
    decreases ps
  {
    if ps == [] then [] else Flatten(parent, ps[0]) + FlattenAll(parent, ps[1..])
  }

  function AllProjects(m: Manifest): seq<Project> {
    FlattenAll(None, m.projects)
  }

  /** A project as flattening leaves it. */
  predicate IsFlat(p: Project) {
    p.projects == [] && Clean(p.path) == p.path && Clean(p.name) == p.name
  }

  predicate AllFlat(ps: seq<Project>) {
    forall k | 0 <= k < |ps| :: IsFlat(ps[k])
  }

  lemma {:induction false} FlattenFlattens(parent: Option<Project>, ps: seq<Project>)
    ensures AllFlat(FlattenAll(parent, ps))
    decreases ps
  {
    if ps != [] {
      var q := Placed(parent, ps[0]);
      FlattenFlattens(Some(q), ps[0].projects);
      FlattenFlattens(parent, ps[1..]);
      PlacedIsClean(parent, ps[0]);
      var a, b, c := [q.(projects := [])], FlattenAll(Some(q), ps[0].projects), FlattenAll(parent, ps[1..]);
      assert FlattenAll(parent, ps) == a + b + c;
    }
  }

  lemma PlacedIsClean(parent: Option<Project>, p: Project)
    ensures var q := Placed(parent, p);
            Clean(q.path) == q.path && Clean(q.name) == q.name && q.path != "" && q.name != ""
  {
    var path := if parent.Some? && parent.value.path != "" then JoinPath(parent.value.path, p.path) else p.path;
    var name := if parent.Some? && parent.value.name != "" then JoinPath(parent.value.name, p.name) else p.name;
    CleanIdempotent(path);
    CleanIsReduced(path);
    CleanIdempotent(TrimSuffix(name, ".git"));
    CleanIsReduced(TrimSuffix(name, ".git"));
  }

  /** A project and the paths and names of all that it is nested in, from the top, with its own. */
  datatype Nested = Nested(project: Project, paths: seq<string>, names: seq<string>)

  /** All projects, parents before children. */
  function Walk(ps: seq<Project>, paths: seq<string>, names: seq<string>): seq<Nested>
    decreases ps
  {
    if ps == [] then []
    else
      var here := Nested(ps[0], paths + [ps[0].path], names + [ps[0].name]);
      [here] + Walk(ps[0].projects, here.paths, here.names) + Walk(ps[1..], paths, names)
  }

  /** A name that is fixed up, and has no ".." in it. */
  predicate Forward(name: string) {
    Neat(name) && ".." !in Kept(name)
  }

  ghost predicate AllForward(names: seq<string>) {
    forall name | name in names :: Forward(name)
  }

  /** The flattened project for a nested one: at the joined paths and, unless there is something
      left to trim, under the joined names. */
  ghost predicate FlatFrom(w: Nested, q: Project) {
    && q.path == Clean(Join(w.paths, '/'))
    && q.projects == [] && q.attrs == w.project.attrs
    && (AllForward(w.names) ==> q.name == Clean(Join(w.names, '/')) && !HasSuffix(q.name, ".git"))
  }

  ghost predicate AllFlatFrom(ws: seq<Nested>, qs: seq<Project>) {
    |ws| == |qs| && forall k | 0 <= k < |ws| :: FlatFrom(ws[k], qs[k])
  }

  lemma FlatFromConcat(a: seq<Nested>, b: seq<Nested>, x: seq<Project>, y: seq<Project>)
    requires AllFlatFrom(a, x) && AllFlatFrom(b, y)
    ensures AllFlatFrom(a + b, x + y)
  {
  }

  /** The parent, if any, as flattening has placed it. */
  ghost predicate Around(parent: Option<Project>, paths: seq<string>, names: seq<string>) {
    match parent
    case None => paths == [] && names == []
    case Some(q) =>
      && paths != [] && names != [] && Join(paths, '/') != "" && Join(names, '/') != ""
      && q.path == Clean(Join(paths, '/')) && q.name != "" && Clean(q.name) == q.name
      && (AllForward(names) ==> q.name == Clean(Join(names, '/')) && !HasSuffix(q.name, ".git"))
  }

  lemma PlacedAround(parent: Option<Project>, paths: seq<string>, names: seq<string>, p: Project)
    requires Around(parent, paths, names) && Clean(p.path) == p.path && p.path != "" && p.name != ""
    ensures var q := Placed(parent, p);
      && Around(Some(q), paths + [p.path], names + [p.name])
      && FlatFrom(Nested(p, paths + [p.path], names + [p.name]), q.(projects := []))
  {
    hide Clean, JoinPath, HasSuffix, TrimSuffix, Forward, Join;
    PlacedIsClean(parent, p);
    PathAround(parent, paths, names, p);
    JoinSnoc(paths, p.path);
    JoinSnoc(names, p.name);
    if AllForward(names + [p.name]) {
      assert forall name | name in names :: name in names + [p.name];
      assert p.name in names + [p.name];
      NameAround(parent, paths, names, p);
    }
  }

  lemma PathAround(parent: Option<Project>, paths: seq<string>, names: seq<string>, p: Project)
    requires Around(parent, paths, names) && Clean(p.path) == p.path && p.path != ""
    ensures Placed(parent, p).path == Clean(Join(paths + [p.path], '/'))
  {
    hide Clean, Join, TrimSuffix, HasSuffix, AllForward;
    JoinSnoc(paths, p.path);
    if parent.Some? {
      CleanIsReduced(Join(paths, '/'));
      CleanIdempotent(parent.value.path + "/" + p.path);
      CleanJoin(Join(paths, '/'), p.path);
    }
  }

  lemma NameAround(parent: Option<Project>, paths: seq<string>, names: seq<string>, p: Project)
    requires Around(parent, paths, names) && AllForward(names) && Forward(p.name)
    ensures Placed(parent, p).name == Clean(Join(names + [p.name], '/'))
    ensures !HasSuffix(Placed(parent, p).name, ".git")
  {
    hide Clean, Join, HasSuffix, AllForward, Kept;
    JoinSnoc(names, p.name);
    if parent.Some? {
      CleanIdempotent(parent.value.name + "/" + p.name);
      CleanJoin(Join(names, '/'), p.name);
      NoSuffixBelow(parent.value.name, p.name);
    }
  }

  lemma NoSuffixBelow(a: string, b: string)
    requires a != "" && Clean(a) == a && !HasSuffix(a, ".git") && Forward(b)
    ensures !HasSuffix(Clean(a + "/" + b), ".git")
  {
    hide HasSuffix, Kept, Render;
    JoinForward(a, b);
    var kept := Kept(b);
    if kept == [] {
      assert Kept(a) + kept == Kept(a);
    } else {
      SuffixOfLast(Rooted(b), kept, ".git");
      SuffixOfLast(Rooted(a), Kept(a) + kept, ".git");
    }
  }

  /** Nothing is lost in flattening, and everything is where it belongs: the projects come
      parents first, each at the paths of all that it is nested in, joined and cleaned, and
      named likewise. */
  lemma {:induction false} FlattenPlaces(parent: Option<Project>, ps: seq<Project>, paths: seq<string>,
                                         names: seq<string>)
    requires FixedUp(ps) && Around(parent, paths, names)
    ensures AllFlatFrom(Walk(ps, paths, names), FlattenAll(parent, ps))
    decreases ps
  {
    hide Placed, Around, FlatFrom, Clean;
    if ps != [] {
      var p, q := ps[0], Placed(parent, ps[0]);
      var here := Nested(p, paths + [p.path], names + [p.name]);
      CleanIsReduced(p.path);
      CleanIsReduced(p.name);
      PlacedAround(parent, paths, names, p);
      FlattenPlaces(Some(q), p.projects, here.paths, here.names);
      FlattenPlaces(parent, ps[1..], paths, names);
      FlatFromConcat([here], Walk(p.projects, here.paths, here.names), [q.(projects := [])],
                     FlattenAll(Some(q), p.projects));
      FlatFromConcat([here] + Walk(p.projects, here.paths, here.names), Walk(ps[1..], paths, names),
                     Flatten(parent, p), FlattenAll(parent, ps[1..]));
    }
  }

  /** For a whole manifest that is fixed up. */
  lemma AllProjectsPlaced(m: Manifest)
    requires FixedUp(m.projects)
    ensures AllFlatFrom(Walk(m.projects, [], []), AllProjects(m))
  {
    FlattenPlaces(None, m.projects, [], []);
  }

  /** What flattening a second time does to a flat project: one more ".git" goes. */
  function Retrim(p: Project): Project {
    p.(name := Clean(TrimSuffix(p.name, ".git")))
  }

  function RetrimAll(ps: seq<Project>): (r: seq<Project>)
    ensures |r| == |ps|
  {
    seq(|ps|, k requires 0 <= k < |ps| => Retrim(ps[k]))
  }

  lemma {:induction false} FlattenAgain(ps: seq<Project>)
    requires AllFlat(ps)
    ensures FlattenAll(None, ps) == RetrimAll(ps)
  {
    hide Flatten, Retrim, Clean;
    if ps != [] {
      FlattenFlat(ps[0]);
      FlattenAgain(ps[1..]);
      assert RetrimAll(ps) == [Retrim(ps[0])] + RetrimAll(ps[1..]);
    }
  }

  lemma FlattenFlat(p: Project)
    requires IsFlat(p)
    ensures Flatten(None, p) == [Retrim(p)]
  {
    hide Clean;
  }

  lemma {:induction false} FlattenConcat(parent: Option<Project>, a: seq<Project>, b: seq<Project>)
    ensures FlattenAll(parent, a + b) == FlattenAll(parent, a) + FlattenAll(parent, b)
  {
    hide Flatten;
    if a == [] {
      assert a + b == b;
    } else {
      var c := a + b;
      assert c[0] == a[0] && c[1..] == a[1..] + b;
      FlattenConcat(parent, a[1..], b);
      var x, y, z := Flatten(parent, a[0]), FlattenAll(parent, a[1..]), FlattenAll(parent, b);
      assert FlattenAll(parent, c) == x + (y + z);
    }
  }

  lemma RetrimKeeps(ps: seq<Project>)
    requires AllFlat(ps) && forall k | 0 <= k < |ps| :: !HasSuffix(ps[k].name, ".git")
    ensures RetrimAll(ps) == ps
  {
  }

  // ---------------------------------------------------------------- merging

  function MergeRemote(vs: seq<Remote>, r: Remote): Option<seq<Remote>> {
    if vs == [] then Some([r])
    else if vs[0].name == r.name then
      if r.overrides then Some([r] + vs[1..]) else if r == vs[0] then Some(vs) else None
    else
      match MergeRemote(vs[1..], r)
      case None => None
      case Some(rest) => Some([vs[0]] + rest)
  }

  function MergeRemotes(vs: seq<Remote>, rs: seq<Remote>): Option<seq<Remote>>
    decreases |rs|
  {
    if rs == [] then Some(vs)
    else
      match MergeRemote(vs, rs[0])
      case None => None
      case Some(vs') => MergeRemotes(vs', rs[1..])
  }

  /** A single-valued element: override or agree. */
  function MergeOne<T(==)>(old': Option<T>, new': Option<T>, overrides: bool): Option<Option<T>> {
    if new'.None? then Some(old')
    else if overrides || old'.None? then Some(new')
    else if old' == new' then Some(old')
    else None
  }

  function ProjectPaths(ps: seq<Project>): (r: seq<string>)
    ensures |r| == |ps|
  {
    seq(|ps|, k requires 0 <= k < |ps| => ps[k].path)
  }

  function Without(ps: seq<Project>, removed: seq<string>): seq<Project> {
    if ps == [] then []
    else (if ps[0].name in removed then [] else [ps[0]]) + Without(ps[1..], removed)
  }

  /** The last `extend-project` of that name. */
  function FindExtend(extensions: seq<Extend>, name: string): Option<Extend> {
    if extensions == [] then None
    else
      var last := extensions[|extensions| - 1];
      if last.name == name then Some(last) else FindExtend(extensions[..|extensions| - 1], name)
  }

  function Extended(p: Project, extensions: seq<Extend>): Project {
    match FindExtend(extensions, p.name)
    case None => p
    case Some(e) =>
      if e.path != p.path then p
      else
        var groups :=
          if p.attrs.groups == "" then e.groups
          else if e.groups != "" then Join(Split(p.attrs.groups, ',') + Split(e.groups, ','), ',')
          else p.attrs.groups;
        p.(attrs := p.attrs.(groups := groups, revision := if e.revision != "" then e.revision else p.attrs.revision))
  }

  function ExtendAll(ps: seq<Project>, extensions: seq<Extend>): (r: seq<Project>)
    ensures |r| == |ps|
  {
    seq(|ps|, k requires 0 <= k < |ps| => Extended(ps[k], extensions))
  }

  /** The extension at `k` is the last one of the project's name. */
  ghost predicate LastFor(extensions: seq<Extend>, k: nat, name: string) {
    && k < |extensions| && extensions[k].name == name
    && forall j | k < j < |extensions| :: extensions[j].name != name
  }

  lemma {:induction false} FindsLast(extensions: seq<Extend>, k: nat, name: string)
    requires LastFor(extensions, k, name)
    ensures FindExtend(extensions, name) == Some(extensions[k])
  {
    var n := |extensions| - 1;
    if k < n {
      assert extensions[n].name != name;
      FindsLast(extensions[..n], k, name);
    }
  }

  lemma {:induction false} FindsNone(extensions: seq<Extend>, name: string)
    requires forall e | e in extensions :: e.name != name
    ensures FindExtend(extensions, name) == None
  {
    if extensions != [] { FindsNone(extensions[..|extensions| - 1], name); }
  }

  /** What extending does to a project: the last extension of its name, if it has the project's
      path, sets the revision if it has one, and puts its groups behind the project's; otherwise,
      and apart from that, nothing changes. */
  lemma ExtensionApplies(ps: seq<Project>, extensions: seq<Extend>, i: nat)
    requires i < |ps|
    ensures var p, q := ps[i], ExtendAll(ps, extensions)[i];
      && q == p.(attrs := p.attrs.(groups := q.attrs.groups, revision := q.attrs.revision))
      && ((forall e | e in extensions :: e.name != p.name) ==> q == p)
      && forall k: nat | LastFor(extensions, k, p.name) ::
           var e := extensions[k];
           if e.path != p.path then q == p
           else
             && q.attrs.revision == (if e.revision != "" then e.revision else p.attrs.revision)
             && GroupList(q.attrs.groups) == GroupList(p.attrs.groups) + GroupList(e.groups)
  {
    hide FindExtend, Join, Split;
    var p := ps[i];
    if forall e | e in extensions :: e.name != p.name { FindsNone(extensions, p.name); }
    forall k: nat | LastFor(extensions, k, p.name) ensures FindExtend(extensions, p.name) == Some(extensions[k]) {
      FindsLast(extensions, k, p.name);
    }
    forall e: Extend | p.attrs.groups != "" && e.groups != ""
      ensures var a, b := Split(p.attrs.groups, ','), Split(e.groups, ','); GroupList(Join(a + b, ',')) == a + b
    {
      GroupsJoined(p.attrs.groups, e.groups);
    }
  }

  /** The groups that are named. */
  function GroupList(groups: string): seq<string> {
    if groups == "" then [] else Split(groups, ',')
  }

  lemma GroupsJoined(a: string, b: string)
    requires a != "" && b != ""
    ensures GroupList(Join(Split(a, ',') + Split(b, ','), ',')) == Split(a, ',') + Split(b, ',')
  {
    var parts := Split(a, ',') + Split(b, ',');
    assert |parts| >= 2;
    JoinNotEmpty(parts);
    hide Split, Join;
    SplitJoin(parts, ',');
  }

  lemma JoinNotEmpty(parts: seq<string>)
    requires |parts| >= 2
    ensures Join(parts, ',') != ""
  {
  }

  /** `Merge`, as a function. */
  function Merged(v: Manifest, m: Manifest): Result<Manifest> {
    if m.notice != "" && v.notice != "" then Err(DuplicateNotice)
    else
      var remotes := MergeRemotes(v.remotes, m.remotes);
      var defaults := MergeOne(v.defaults, m.defaults, m.defaults.Some? && m.defaults.value.overrides);
      var server := MergeOne(v.server, m.server, m.server.Some? && m.server.value.overrides);
      if remotes.None? then Err(DuplicateRemote)
      else if defaults.None? then Err(DuplicateDefault)
      else if server.None? then Err(DuplicateServer)
      else if !Unique(ProjectPaths(AllProjects(v) + AllProjects(m))) then Err(DuplicatePath)
      else
        var added := FlattenAll(None, v.projects + AllProjects(m));
        Ok(v.(notice := if m.notice != "" then m.notice else v.notice,
              remotes := remotes.value, defaults := defaults.value, server := server.value,
              projects := ExtendAll(Without(added, m.removals), m.extensions)))
  }

  predicate Unique(ss: seq<string>) {
    ss == [] || (ss[|ss| - 1] !in ss[..|ss| - 1] && Unique(ss[..|ss| - 1]))
  }

  function MergeAll(v: Manifest, ms: seq<Manifest>): Result<Manifest>
    decreases |ms|
  {
    if ms == [] then Ok(v)
    else
      match Merged(v, ms[0])
      case Err(e) => Err(e)
      case Ok(v') => MergeAll(v', ms[1..])
  }

  function MergeManifests(ms: seq<Manifest>): Result<Manifest> {
    MergeAll(EMPTY, ms)
  }

  lemma {:induction false} UniqueIsDistinct(ss: seq<string>)
    ensures Unique(ss) <==> Distinct(ss)
  {
    if ss != [] {
      var init, last := ss[..|ss| - 1], ss[|ss| - 1];
      UniqueIsDistinct(init);
      assert forall k | 0 <= k < |init| :: init[k] == ss[k];
    }
  }

  ghost predicate RemoteNamesDistinct(rs: seq<Remote>) {
    forall i, j | 0 <= i < j < |rs| :: rs[i].name != rs[j].name
  }

  lemma {:induction false} MergeRemoteDistinct(vs: seq<Remote>, r: Remote)
    requires RemoteNamesDistinct(vs) && MergeRemote(vs, r).Some?
    ensures RemoteNamesDistinct(MergeRemote(vs, r).value)
    ensures forall x | x in MergeRemote(vs, r).value :: x.name == r.name || exists y | y in vs :: y.name == x.name
  {
    if vs != [] && vs[0].name != r.name {
      MergeRemoteDistinct(vs[1..], r);
      var rest := MergeRemote(vs[1..], r).value;
      forall x | x in rest
        ensures x.name != vs[0].name && (x.name == r.name || exists y | y in vs :: y.name == x.name)
      {
        if x.name != r.name {
          var y :| y in vs[1..] && y.name == x.name;
          assert y in vs;
        }
      }
      assert forall k | 0 <= k < |rest| :: rest[k] in rest;
    }
  }

  lemma {:induction false} MergeRemotesDistinct(vs: seq<Remote>, rs: seq<Remote>)
    requires RemoteNamesDistinct(vs) && MergeRemotes(vs, rs).Some?
    ensures RemoteNamesDistinct(MergeRemotes(vs, rs).value)
    decreases |rs|
  {
    if rs != [] {
      MergeRemoteDistinct(vs, rs[0]);
      MergeRemotesDistinct(MergeRemote(vs, rs[0]).value, rs[1..]);
    }
  }

  /** Every merge's project list, in order: the old projects flattened, then the new ones
      flattened (twice), without the names this merge removes, extended in place. */
  lemma MergedList(v: Manifest, m: Manifest)
    requires Merged(v, m).Ok?
    ensures Merged(v, m).value.projects ==
            ExtendAll(Without(AllProjects(v) + RetrimAll(AllProjects(m)), m.removals), m.extensions)
    ensures (forall k | 0 <= k < |AllProjects(m)| :: !HasSuffix(AllProjects(m)[k].name, ".git")) ==>
            Merged(v, m).value.projects ==
            ExtendAll(Without(AllProjects(v) + AllProjects(m), m.removals), m.extensions)
  {
    hide Flatten, ExtendAll, Without, MergeRemotes, Unique, Clean, HasSuffix;
    FlattenFlattens(None, m.projects);
    FlattenAgain(AllProjects(m));
    FlattenConcat(None, v.projects, AllProjects(m));
    if forall k | 0 <= k < |AllProjects(m)| :: !HasSuffix(AllProjects(m)[k].name, ".git") {
      RetrimKeeps(AllProjects(m));
    }
  }

  lemma {:induction false} WithoutIsFilter(ps: seq<Project>, removed: seq<string>)
    ensures forall p :: p in Without(ps, removed) <==> p in ps && p.name !in removed
  {
    if ps != [] {
      WithoutIsFilter(ps[1..], removed);
      assert forall p :: p in ps <==> p == ps[0] || p in ps[1..];
    }
  }

  lemma DistinctCons(x: string, ss: seq<string>)
    requires Distinct(ss) && x !in ss
    ensures Distinct([x] + ss)
  {
  }

  lemma {:induction false} WithoutDistinct(ps: seq<Project>, removed: seq<string>)
    requires Distinct(ProjectPaths(ps))
    ensures Distinct(ProjectPaths(Without(ps, removed)))
  {
    if ps != [] {
      var tail, rest := ps[1..], Without(ps[1..], removed);
      assert Without(ps, removed) == if ps[0].name in removed then rest else [ps[0]] + rest;
      assert ps == [ps[0]] + tail;
      hide Without, ProjectPaths;
      PathsCons(ps[0], tail);
      PathsCons(ps[0], rest);
      DistinctTail(ps[0].path, ProjectPaths(tail));
      WithoutDistinct(tail, removed);
      WithoutIsFilter(tail, removed);
      PathsMonotone(rest, tail);
      DistinctCons(ps[0].path, ProjectPaths(rest));
    }
  }

  lemma DistinctTail(x: string, ss: seq<string>)
    requires Distinct([x] + ss)
    ensures Distinct(ss) && x !in ss
  {
    var all := [x] + ss;
    assert forall k | 0 <= k < |ss| :: all[k + 1] == ss[k];
    assert all[0] == x;
  }

  lemma PathsCons(p: Project, ps: seq<Project>)
    ensures ProjectPaths([p] + ps) == [p.path] + ProjectPaths(ps)
  {
  }

  lemma PathsMonotone(a: seq<Project>, b: seq<Project>)
    requires forall p | p in a :: p in b
    ensures forall x | x in ProjectPaths(a) :: x in ProjectPaths(b)
  {
    forall x | x in ProjectPaths(a) ensures x in ProjectPaths(b) {
      var i :| 0 <= i < |a| && ProjectPaths(a)[i] == x;
      assert a[i] in b;
      var j :| 0 <= j < |b| && b[j] == a[i];
      assert ProjectPaths(b)[j] == x;
    }
  }

  lemma ExtendKeeps(ps: seq<Project>, extensions: seq<Extend>)
    ensures forall k | 0 <= k < |ps| ::
              var q := ExtendAll(ps, extensions)[k];
              q.name == ps[k].name && q.path == ps[k].path && q.projects == ps[k].projects
    ensures ProjectPaths(ExtendAll(ps, extensions)) == ProjectPaths(ps)
  {
    hide FindExtend;
  }

  /** What every successful merge keeps: flat projects at distinct paths, distinct remotes. */
  ghost predicate Consolidated(v: Manifest) {
    AllFlat(v.projects) && Distinct(ProjectPaths(v.projects)) && RemoteNamesDistinct(v.remotes)
  }

  lemma MergeConsolidates(v: Manifest, m: Manifest)
    requires RemoteNamesDistinct(v.remotes) && Merged(v, m).Ok?
    ensures Consolidated(Merged(v, m).value)
    ensures forall p | p in Merged(v, m).value.projects :: p.name !in m.removals
  {
    hide Flatten, FlattenAll, MergeRemotes, FindExtend, Extended, Unique, Clean, Without;
    var a, b := AllProjects(v), AllProjects(m);
    var listed := a + RetrimAll(b);
    var kept := Without(listed, m.removals);
    MergedList(v, m);
    MergeRemotesDistinct(v.remotes, m.remotes);
    UniqueIsDistinct(ProjectPaths(a + b));
    assert ProjectPaths(listed) == ProjectPaths(a + b);
    WithoutIsFilter(listed, m.removals);
    WithoutDistinct(listed, m.removals);
    ExtendKeeps(kept, m.extensions);
    FlattenFlattens(None, v.projects);
    FlattenFlattens(None, m.projects);
    RetrimFlat(b);
    forall k | 0 <= k < |kept| ensures IsFlat(ExtendAll(kept, m.extensions)[k]) && kept[k].name !in m.removals {
      assert kept[k] in listed;
    }
  }

  lemma RetrimFlat(ps: seq<Project>)
    requires AllFlat(ps)
    ensures AllFlat(RetrimAll(ps))
  {
    forall k | 0 <= k < |ps| ensures IsFlat(Retrim(ps[k])) {
      CleanIdempotent(TrimSuffix(ps[k].name, ".git"));
    }
  }

  lemma {:induction false} MergeAllConsolidates(v: Manifest, ms: seq<Manifest>)
    requires Consolidated(v) && MergeAll(v, ms).Ok?
    ensures Consolidated(MergeAll(v, ms).value)
    decreases |ms|
  {
    hide Merged, Consolidated;
    if ms != [] {
      ConsolidatedStep(v, ms[0]);
      MergeAllConsolidates(Merged(v, ms[0]).value, ms[1..]);
    }
  }

  lemma ConsolidatedStep(v: Manifest, m: Manifest)
    requires Consolidated(v) && Merged(v, m).Ok?
    ensures Consolidated(Merged(v, m).value)
  {
    MergeConsolidates(v, m);
  }

  /** Whatever the manifests: merging them yields no nested projects, pairwise distinct
      project paths and pairwise distinct remote names. */
  lemma MergedManifestsAreConsolidated(ms: seq<Manifest>)
    requires MergeManifests(ms).Ok?
    ensures Consolidated(MergeManifests(ms).value)
  {
    MergeAllConsolidates(EMPTY, ms);
  }

  // ------------------------------------------------- what else merging decides

  /** The remote that a list names `name`. */
  function Named(rs: seq<Remote>, name: string): Option<Remote> {
    if rs == [] then None else if rs[0].name == name then Some(rs[0]) else Named(rs[1..], name)
  }

  /** The remote of a name after `rs` have been merged: the last of them, or else the one before. */
  function Current(vs: seq<Remote>, rs: seq<Remote>, name: string): Option<Remote> {
    if rs == [] then Named(vs, name)
    else if rs[|rs| - 1].name == name then Some(rs[|rs| - 1])
    else Current(vs, rs[..|rs| - 1], name)
  }

  function Names(rs: seq<Remote>): (r: seq<string>)
    ensures |r| == |rs|
  {
    seq(|rs|, k requires 0 <= k < |rs| => rs[k].name)
  }

  /** The names with the new ones behind them, in order. */
  function Added(names: seq<string>, more: seq<string>): seq<string> {
    if more == [] then names
    else
      var before, last := Added(names, more[..|more| - 1]), more[|more| - 1];
      if last in before then before else before + [last]
  }

  /** A remote differs from the one of its name at that time, and does not override it. */
  ghost predicate Clashes(vs: seq<Remote>, rs: seq<Remote>, k: nat)
    requires k < |rs|
  {
    !rs[k].overrides && Current(vs, rs[..k], rs[k].name) !in {None, Some(rs[k])}
  }

  lemma NamedCons(r: Remote, rest: seq<Remote>, name: string)
    ensures Named([r] + rest, name) == if r.name == name then Some(r) else Named(rest, name)
    ensures Names([r] + rest) == [r.name] + Names(rest)
  {
    assert ([r] + rest)[1..] == rest;
  }

  lemma {:induction false} MergeRemoteMeans(vs: seq<Remote>, r: Remote, name: string)
    ensures MergeRemote(vs, r).None? <==> !r.overrides && Named(vs, r.name) !in {None, Some(r)}
    ensures MergeRemote(vs, r).Some? ==> var ws := MergeRemote(vs, r).value;
      && Named(ws, name) == (if name == r.name then Some(r) else Named(vs, name))
      && Names(ws) == if Named(vs, r.name).Some? then Names(vs) else Names(vs) + [r.name]
  {
    hide Named, Names;
    if vs == [] {
      assert Named([], name) == None && Named([], r.name) == None && Names([]) == [] by { NamedNone(name, r.name); }
      NamedCons(r, [], name);
      assert [r] + [] == [r];
    } else {
      var rest := vs[1..];
      assert vs == [vs[0]] + rest;
      NamedCons(vs[0], rest, name);
      NamedCons(vs[0], rest, r.name);
      if vs[0].name == r.name {
        NamedCons(r, rest, name);
      } else {
        MergeRemoteMeans(rest, r, name);
        if MergeRemote(rest, r).Some? {
          var ws := MergeRemote(rest, r).value;
          NamedCons(vs[0], ws, name);
          assert [vs[0].name] + (Names(rest) + [r.name]) == [vs[0].name] + Names(rest) + [r.name];
        }
      }
    }
  }

  lemma NamedNone(a: string, b: string)
    ensures Named([], a) == None && Named([], b) == None && Names([]) == []
  {
  }

  lemma {:induction false} NamedWhen(rs: seq<Remote>, name: string)
    ensures Named(rs, name).Some? <==> name in Names(rs)
  {
    if rs != [] {
      NamedWhen(rs[1..], name);
      assert rs == [rs[0]] + rs[1..];
      assert Names(rs) == [rs[0].name] + Names(rs[1..]);
    }
  }

  /** Merging remotes: exactly when it fails; and otherwise which remote each name stands for,
      and in which order they are listed. */
  lemma {:induction false} RemotesMerged(vs: seq<Remote>, rs: seq<Remote>)
    ensures MergeRemotes(vs, rs).None? <==> exists k :: 0 <= k < |rs| && Clashes(vs, rs, k)
    ensures MergeRemotes(vs, rs).Some? ==> var ws := MergeRemotes(vs, rs).value;
      && (forall name :: Named(ws, name) == Current(vs, rs, name))
      && Names(ws) == Added(Names(vs), Names(rs))
    decreases |rs|
  {
    hide MergeRemote, MergeRemotes, Named;
    if rs == [] {
      MergeRemotesNone(vs);
    } else {
      var n := |rs| - 1;
      var some, r := rs[..n], rs[n];
      RemotesMerged(vs, some);
      assert rs == some + [r];
      MergeRemotesSnoc(vs, some, r);
      assert Names(rs)[..n] == Names(some);
      forall k | 0 <= k < n ensures Clashes(vs, rs, k) <==> Clashes(vs, some, k) { assert rs[..k] == some[..k]; }
      if MergeRemotes(vs, some).Some? {
        var ws := MergeRemotes(vs, some).value;
        MergeRemoteMeans(ws, r, r.name);
        NamedWhen(ws, r.name);
        assert Named(ws, r.name) == Current(vs, some, r.name);
        assert Clashes(vs, rs, n) <==> !r.overrides && Named(ws, r.name) !in {None, Some(r)};
        if MergeRemote(ws, r).Some? {
          forall name ensures Named(MergeRemote(ws, r).value, name) == Current(vs, rs, name) {
            MergeRemoteMeans(ws, r, name);
          }
        }
      }
    }
  }

  /** Two values of a single-valued element that can be merged. */
  ghost predicate Compatible<T(!new)>(old': Option<T>, new': Option<T>, overrides: bool) {
    old'.None? || new'.None? || overrides || old' == new'
  }

  /** Exactly when a merge succeeds, why it fails otherwise, and what becomes of all but the projects. */
  lemma MergesExactly(v: Manifest, m: Manifest)
    ensures var clash := exists k :: 0 <= k < |m.remotes| && Clashes(v.remotes, m.remotes, k);
      var defaults := Compatible(v.defaults, m.defaults, m.defaults.Some? && m.defaults.value.overrides);
      var server := Compatible(v.server, m.server, m.server.Some? && m.server.value.overrides);
      var notice, merged := m.notice == "" || v.notice == "", Merged(v, m);
      && (merged == Err(DuplicateNotice) <==> !notice)
      && (merged == Err(DuplicateRemote) <==> notice && clash)
      && (merged == Err(DuplicateDefault) <==> notice && !clash && !defaults)
      && (merged == Err(DuplicateServer) <==> notice && !clash && defaults && !server)
      && (merged.Ok? <==>
            notice && !clash && defaults && server && Distinct(ProjectPaths(AllProjects(v) + AllProjects(m))))
      && (merged.Err? ==> merged.error in {DuplicateNotice, DuplicateRemote, DuplicateDefault, DuplicateServer,
                                           DuplicatePath})
    ensures Merged(v, m).Ok? ==> var w := Merged(v, m).value;
      && w.notice == v.notice + m.notice
      && w.defaults == (if m.defaults.Some? then m.defaults else v.defaults)
      && w.server == (if m.server.Some? then m.server else v.server)
      && (forall name :: Named(w.remotes, name) == Current(v.remotes, m.remotes, name))
      && Names(w.remotes) == Added(Names(v.remotes), Names(m.remotes))
      && w.removals == v.removals && w.extensions == v.extensions && w.includes == v.includes
  {
    hide FlattenAll, MergeRemotes, ExtendAll, Unique, Without, Clashes, Named, Current, Added, Names;
    RemotesMerged(v.remotes, m.remotes);
    UniqueIsDistinct(ProjectPaths(AllProjects(v) + AllProjects(m)));
  }

  /** A project that a manifest adds is in the result of merging it exactly when the same
      manifest does not remove the name it ends up with, its own without a further ".git":
      a removal comes after the additions, so a manifest cannot replace a project under
      its old name. */
  lemma OwnProjectSurvives(v: Manifest, m: Manifest, p: Project)
    requires Merged(v, m).Ok? && p in AllProjects(m)
    ensures p.path in ProjectPaths(Merged(v, m).value.projects) <==> Retrim(p).name !in m.removals
    ensures !HasSuffix(p.name, ".git") ==> Retrim(p).name == p.name
  {
    hide Flatten, FlattenAll, MergeRemotes, FindExtend, Extended, ExtendAll, Unique, Clean, HasSuffix, Without, Retrim;
    var mine, theirs := AllProjects(v), AllProjects(m);
    var listed := mine + RetrimAll(theirs);
    var kept := Without(listed, m.removals);
    var n := |mine|;
    MergedList(v, m);
    UniqueIsDistinct(ProjectPaths(mine + theirs));
    RetrimKeepsPaths(mine, theirs);
    WithoutIsFilter(listed, m.removals);
    ExtendKeeps(kept, m.extensions);
    var i :| 0 <= i < |theirs| && theirs[i] == p;
    assert listed[n + i] == Retrim(p) && ProjectPaths(listed)[n + i] == p.path by { SamePath(p); }
    if Retrim(p).name !in m.removals {
      var k :| 0 <= k < |kept| && kept[k] == Retrim(p);
      assert ProjectPaths(kept)[k] == p.path by { SamePath(p); }
    }
    if p.path in ProjectPaths(kept) {
      var k :| 0 <= k < |kept| && ProjectPaths(kept)[k] == p.path;
      assert kept[k] in listed;
      var j :| 0 <= j < |listed| && listed[j] == kept[k];
      assert ProjectPaths(listed)[n + i] == ProjectPaths(listed)[j];
    }
    SameName(p, m);
  }

  lemma SamePath(p: Project)
    ensures Retrim(p).path == p.path
  {
  }

  lemma RetrimKeepsPaths(a: seq<Project>, b: seq<Project>)
    ensures ProjectPaths(a + RetrimAll(b)) == ProjectPaths(a + b)
  {
  }

  lemma SameName(p: Project, m: Manifest)
    requires p in AllProjects(m)
    ensures !HasSuffix(p.name, ".git") ==> Retrim(p).name == p.name
  {
    FlattenFlattens(None, m.projects);
    assert IsFlat(p);
  }

  /** What becomes of the documented way to replace a project: both of them go. */
  lemma ReplacementVanishes(a: Attributes)
    ensures var v := EMPTY.(projects := [Project("x", "a", a, [])]);
      var m := EMPTY.(projects := [Project("x", "b", a, [])], removals := ["x"]);
      Merged(v, m).Ok? && Merged(v, m).value.projects == []
  {
    var p, q := Project("x", "a", a, []), Project("x", "b", a, []);
    var v, m := EMPTY.(projects := [p]), EMPTY.(projects := [q], removals := ["x"]);
    CleanLetter('a');
    CleanLetter('b');
    CleanLetter('x');
    FlattenOne(p);
    FlattenOne(q);
    BothGo(p, q);
    hide FlattenAll, Flatten, RetrimAll, Without, ExtendAll, Clean, ProjectPaths, Unique;
    assert Merged(v, m).Ok?;
    MergedList(v, m);
  }

  lemma BothGo(p: Project, q: Project)
    requires p.name == q.name == "x" && p.path == "a" && q.path == "b" && Clean("x") == "x"
    ensures Unique(ProjectPaths([p] + [q])) && RetrimAll([q]) == [q]
    ensures ExtendAll(Without([p] + [q], ["x"]), []) == []
  {
    hide Clean;
    assert ProjectPaths([p] + [q]) == ["a", "b"];
    assert ["a", "b"][..1] == ["a"] && ["a"][..0] == [];
    assert Unique(["a"]) && Unique(["a", "b"]);
    assert !HasSuffix("x", ".git");
    assert RetrimAll([q]) == [q];
    assert ([p] + [q])[1..] == [q] && [q][1..] == [];
    assert Without([q], ["x"]) == [] && Without([p] + [q], ["x"]) == [];
  }

  lemma CleanLetter(c: char)
    requires c != '/' && c != '.'
    ensures Clean([c]) == [c]
  {
    var s := [c];
    SplitWhole(s, '/');
    assert s != "" && s != "." && s != "..";
    assert Push(false, [], s) == [s];
    assert [s][1..] == [];
    assert Reduce(false, [], [s]) == Reduce(false, [s], []) == [s];
    assert Join([s], '/') == s && !Rooted(s);
  }

  lemma FlattenOne(p: Project)
    requires p.name == "x" && p.projects == [] && Clean(p.path) == p.path && Clean("x") == "x"
    ensures FlattenAll(None, [p]) == [p]
  {
    hide Clean;
    assert !HasSuffix("x", ".git");
    assert Flatten(None, p) == [p];
    assert [p][1..] == [];
  }

  // ------------------------------------------------------- merging in place

  lemma MergeRemotePast(vs: seq<Remote>, r: Remote)
    requires vs != [] && vs[0].name != r.name
    ensures var rest := MergeRemote(vs[1..], r);
      MergeRemote(vs, r) == if rest.None? then None else Some([vs[0]] + rest.value)
  {
  }

  lemma {:induction false} MergeRemoteSkips(vs: seq<Remote>, r: Remote, k: nat)
    requires k <= |vs| && forall i | 0 <= i < k :: vs[i].name != r.name
    ensures var rest := MergeRemote(vs[k..], r);
            MergeRemote(vs, r) == if rest.None? then None else Some(vs[..k] + rest.value)
  {
    hide MergeRemote;
    var rest := MergeRemote(vs[k..], r);
    if k == 0 {
      assert vs[0..] == vs && vs[..0] == [];
      assert rest.Some? ==> [] + rest.value == rest.value;
    } else {
      MergeRemotePast(vs, r);
      MergeRemoteSkips(vs[1..], r, k - 1);
      assert vs[1..][k - 1..] == vs[k..];
      assert rest.Some? ==> [vs[0]] + (vs[1..][..k - 1] + rest.value) == vs[..k] + rest.value;
    }
  }

  lemma {:induction false} MergeRemotesSnoc(vs: seq<Remote>, rs: seq<Remote>, r: Remote)
    ensures MergeRemotes(vs, rs + [r]) ==
            var vs' := MergeRemotes(vs, rs); if vs'.None? then None else MergeRemote(vs'.value, r)
    decreases |rs|
  {
    if rs == [] {
      assert [] + [r] == [r] && [r][1..] == [];
    } else {
      assert (rs + [r])[1..] == rs[1..] + [r];
      if MergeRemote(vs, rs[0]).Some? { MergeRemotesSnoc(MergeRemote(vs, rs[0]).value, rs[1..], r); }
    }
  }

  lemma {:induction false} MergeRemotesPrefix(vs: seq<Remote>, rs: seq<Remote>, k: nat)
    requires k <= |rs| && MergeRemotes(vs, rs[..k]).None?
    ensures MergeRemotes(vs, rs).None?
    decreases |rs|
  {
    if k > 0 && MergeRemote(vs, rs[0]).Some? {
      assert rs[..k][1..] == rs[1..][..k - 1];
      MergeRemotesPrefix(MergeRemote(vs, rs[0]).value, rs[1..], k - 1);
    }
  }

  lemma {:induction false} WithoutSnoc(ps: seq<Project>, p: Project, removed: seq<string>)
    ensures Without(ps + [p], removed) == Without(ps, removed) + (if p.name in removed then [] else [p])
  {
    if ps == [] {
      assert [p][1..] == [];
    } else {
      var all := ps + [p];
      assert all[0] == ps[0] && all[1..] == ps[1..] + [p];
      WithoutSnoc(ps[1..], p, removed);
      assert Without(all, removed) == (if ps[0].name in removed then [] else [ps[0]]) + Without(all[1..], removed);
    }
  }

  lemma {:induction false} UniquePrefix(ss: seq<string>, k: nat)
    requires k <= |ss| && Unique(ss)
    ensures Unique(ss[..k])
  {
    if k < |ss| {
      UniquePrefix(ss[..|ss| - 1], k);
      assert ss[..|ss| - 1][..k] == ss[..k];
    } else {
      assert ss[..k] == ss;
    }
  }

  /** One more element: repeated, and nothing that goes on is unique; or still unique. */
  lemma UniqueStep(ss: seq<string>, k: nat)
    requires k < |ss| && Unique(ss[..k])
    ensures ss[..k + 1] == ss[..k] + [ss[k]]
    ensures ss[k] in ss[..k] ==> !Unique(ss)
    ensures ss[k] !in ss[..k] ==> Unique(ss[..k + 1])
  {
    hide Unique;
    assert ss[..k + 1] == ss[..k] + [ss[k]];
    UniqueLast(ss[..k], ss[k]);
    if Unique(ss) { UniquePrefix(ss, k + 1); }
  }

  lemma UniqueLast(init: seq<string>, last: string)
    ensures Unique(init + [last]) <==> last !in init && Unique(init)
  {
    var all := init + [last];
    assert all[..|all| - 1] == init && all[|all| - 1] == last;
  }

  function ToSet(ss: seq<string>): set<string> {
    set s | s in ss
  }

  lemma UniqueNone(ss: seq<string>)
    ensures Unique(ss[..0]) && ss[..0] == []
  {
  }

  lemma PathsPointwise(a: seq<Project>, b: seq<Project>)
    ensures var paths := ProjectPaths(a + b);
            && |paths| == |a| + |b|
            && (forall i | 0 <= i < |a| :: paths[i] == a[i].path)
            && (forall i | 0 <= i < |b| :: paths[|a| + i] == b[i].path)
  {
  }

  ghost predicate Indexes(extPath: map<string, Extend>, exts: seq<Extend>) {
    forall name: string {:trigger FindExtend(exts, name)} ::
      FindExtend(exts, name) == if name in extPath then Some(extPath[name]) else None
  }

  /** The remotes up to the first one that does not agree. */
  ghost predicate RemotesStopped(vs: seq<Remote>, rs: seq<Remote>, now: seq<Remote>) {
    exists k | 0 <= k < |rs| :: MergeRemotes(vs, rs[..k]) == Some(now) && MergeRemotes(vs, rs[..k + 1]).None?
  }

  /** The new projects up to the first one whose path is taken; none, if the old ones clash. */
  ghost predicate ProjectsStopped(ps: seq<Project>, m: Manifest, now: seq<Project>) {
    var mine, theirs := FlattenAll(None, ps), AllProjects(m);
    if !Unique(ProjectPaths(mine)) then now == ps
    else
      exists k | 0 <= k < |theirs| ::
        && now == ps + theirs[..k]
        && Unique(ProjectPaths(mine + theirs[..k])) && theirs[k].path in ProjectPaths(mine + theirs[..k])
  }

  /** What `Merge` leaves of `v` when it stops with this error. */
  ghost predicate LeftBehind(v: Manifest, m: Manifest, error: Error, now: Manifest) {
    var v1 := v.(notice := if m.notice != "" then m.notice else v.notice);
    var v2 := v1.(remotes := now.remotes);
    var defaults := if m.defaults.Some? && (m.defaults.value.overrides || v.defaults.None?) then m.defaults
                    else v.defaults;
    var server := if m.server.Some? && (m.server.value.overrides || v.server.None?) then m.server else v.server;
    var v3 := v2.(defaults := defaults);
    var v4 := v3.(server := server);
    match error
    case DuplicateNotice => now == v
    case DuplicateRemote => now == v2 && RemotesStopped(v.remotes, m.remotes, now.remotes)
    case DuplicateDefault => now == v2 && MergeRemotes(v.remotes, m.remotes) == Some(now.remotes)
    case DuplicateServer => now == v3 && MergeRemotes(v.remotes, m.remotes) == Some(now.remotes)
    case DuplicatePath =>
      && now == v4.(projects := now.projects) && MergeRemotes(v.remotes, m.remotes) == Some(now.remotes)
      && ProjectsStopped(v.projects, m, now.projects)
    case _ => false
  }

  lemma StoppedEarly(v: Manifest, m: Manifest)
    requires exists k | 0 <= k < |AllProjects(v)| ::
               AllProjects(v)[k].path in ProjectPaths(AllProjects(v) + AllProjects(m))[..k]
    ensures ProjectsStopped(v.projects, m, v.projects)
  {
    hide FlattenAll, Unique;
    var mine, theirs := AllProjects(v), AllProjects(m);
    var k :| 0 <= k < |mine| && mine[k].path in ProjectPaths(mine + theirs)[..k];
    var j :| 0 <= j < k && ProjectPaths(mine + theirs)[j] == mine[k].path;
    UniqueIsDistinct(ProjectPaths(mine));
    assert ProjectPaths(mine)[j] == ProjectPaths(mine)[k];
  }

  lemma StoppedAt(v: Manifest, m: Manifest, k: nat)
    requires k < |AllProjects(m)|
    requires var paths, n := ProjectPaths(AllProjects(v) + AllProjects(m)), |AllProjects(v)|;
      n + k < |paths| && Unique(paths[..n + k]) && AllProjects(m)[k].path in paths[..n + k]
    ensures ProjectsStopped(v.projects, m, v.projects + AllProjects(m)[..k])
  {
    hide FlattenAll, Unique;
    var mine, theirs := AllProjects(v), AllProjects(m);
    var paths, n := ProjectPaths(mine + theirs), |mine|;
    assert ProjectPaths(mine + theirs[..k]) == paths[..n + k];
    UniquePrefix(paths[..n + k], n);
    assert paths[..n + k][..n] == ProjectPaths(mine);
  }

  /** The manifest that others are merged into. */
  class Document {
    var notice: string
    var remotes: seq<Remote>
    var defaults: Option<Default>
    var server: Option<Server>
    var projects: seq<Project>
    const removals: seq<string>
    const extensions: seq<Extend>
    const includes: seq<string>

    function Value(): Manifest
      reads this
    {
      Manifest(notice, remotes, defaults, server, projects, removals, extensions, includes)
    }

    constructor ()
      ensures Value() == EMPTY
    {
      notice, remotes, defaults, server, projects := "", [], None, None, [];
      removals, extensions, includes := [], [], [];
    }

    /** Replaces the remote of the same name, agrees with it, or appends. */
    method AddRemote(r1: Remote) returns (ok: bool)
      modifies this`remotes
      ensures ok == MergeRemote(old(remotes), r1).Some?
      ensures remotes == if ok then MergeRemote(old(remotes), r1).value else old(remotes)
    {
      hide MergeRemote;
      for idx := 0 to |remotes|
        invariant remotes == old(remotes)
        invariant forall i | 0 <= i < idx :: remotes[i].name != r1.name
      {
        if r1.name == remotes[idx].name {
          MergeRemoteSkips(remotes, r1, idx);
          MergeRemoteHit(remotes[idx..], r1);
          if r1.overrides {
            assert remotes[idx := r1] == remotes[..idx] + ([r1] + remotes[idx..][1..]);
            remotes := remotes[idx := r1];
          } else if r1 != remotes[idx] {
            return false;
          } else {
            assert remotes == remotes[..idx] + remotes[idx..];
          }
          return true;
        }
      }
      MergeRemoteSkips(remotes, r1, |remotes|);
      assert MergeRemote([], r1) == Some([r1]) by { MergeRemoteMiss(r1); }
      assert remotes[|remotes|..] == [] && remotes[..|remotes|] == remotes;
      remotes := remotes + [r1];
      return true;
    }

    method AddRemotes(rs: seq<Remote>) returns (ok: bool)
      modifies this`remotes
      ensures ok == MergeRemotes(old(remotes), rs).Some?
      ensures ok ==> remotes == MergeRemotes(old(remotes), rs).value
      ensures !ok ==> RemotesStopped(old(remotes), rs, remotes)
    {
      hide MergeRemote, MergeRemotes;
      MergeRemotesNone(remotes);
      for k := 0 to |rs|
        invariant MergeRemotes(old(remotes), rs[..k]) == Some(remotes)
      {
        assert rs[..k + 1] == rs[..k] + [rs[k]];
        MergeRemotesSnoc(old(remotes), rs[..k], rs[k]);
        ok := AddRemote(rs[k]);
        if !ok {
          MergeRemotesPrefix(old(remotes), rs, k + 1);
          assert MergeRemotes(old(remotes), rs[..k]) == Some(remotes);
          return;
        }
      }
      assert rs[..|rs|] == rs;
      ok := true;
    }

    /** Appends the projects of `m`, unless some path occurs twice. */
    method AddProjects(m: Manifest) returns (ok: bool)
      modifies this`projects
      ensures ok == Unique(ProjectPaths(AllProjects(old(Value())) + AllProjects(m)))
      ensures ok ==> projects == old(projects) + AllProjects(m)
      ensures !ok ==> ProjectsStopped(old(projects), m, projects)
    {
      hide FlattenAll, Unique, ProjectPaths, ProjectsStopped;
      var mine, theirs := AllProjects(Value()), AllProjects(m);
      ghost var paths := ProjectPaths(mine + theirs);
      PathsPointwise(mine, theirs);
      UniqueNone(paths);
      var realPath: set<string> := {};
      for i := 0 to |mine|
        invariant realPath == ToSet(paths[..i])
        invariant Unique(paths[..i]) && projects == old(projects)
      {
        UniqueStep(paths, i);
        if mine[i].path in realPath {
          StoppedEarly(old(Value()), m);
          return false;
        }
        realPath := realPath + {mine[i].path};
      }
      assert paths[..|mine| + 0] == paths[..|mine|];
      assert projects == old(projects) + theirs[..0];
      for i := 0 to |theirs|
        invariant realPath == ToSet(paths[..|mine| + i])
        invariant Unique(paths[..|mine| + i])
        invariant projects == old(projects) + theirs[..i]
      {
        UniqueStep(paths, |mine| + i);
        if theirs[i].path in realPath {
          StoppedAt(old(Value()), m, i);
          return false;
        }
        projects := projects + [theirs[i]];
        realPath := realPath + {theirs[i].path};
      }
      assert paths[..|paths|] == paths && theirs[..|theirs|] == theirs;
      return true;
    }

    /** Flattens, and drops every project with a removed name, new ones included. */
    method RemoveProjects(names: seq<string>)
      modifies this`projects
      ensures projects == Without(FlattenAll(None, old(projects)), names)
    {
      hide FlattenAll;
      var rmPath := set n | n in names;
      var all, ps: seq<Project> := AllProjects(Value()), [];
      for i := 0 to |all|
        invariant ps == Without(all[..i], names)
      {
        assert all[..i + 1] == all[..i] + [all[i]];
        WithoutSnoc(all[..i], all[i], names);
        if all[i].name !in rmPath { ps := ps + [all[i]]; }
      }
      assert all[..|all|] == all;
      projects := ps;
    }

    method ExtendProjects(exts: seq<Extend>)
      modifies this`projects
      ensures projects == ExtendAll(old(projects), exts)
    {
      var extPath: map<string, Extend> := map[];
      for k := 0 to |exts|
        invariant Indexes(extPath, exts[..k])
      {
        assert exts[..k + 1][..k] == exts[..k];
        extPath := extPath[exts[k].name := exts[k]];
      }
      assert exts[..|exts|] == exts;
      for i := 0 to |projects|
        invariant |projects| == |old(projects)|
        invariant forall k | 0 <= k < i :: projects[k] == Extended(old(projects)[k], exts)
        invariant forall k | i <= k < |projects| :: projects[k] == old(projects)[k]
      {
        var p := projects[i];
        if p.name in extPath {
          var p2 := extPath[p.name];
          if p2.path == p.path {
            if p.attrs.groups == "" {
              projects := projects[i := projects[i].(attrs := projects[i].attrs.(groups := p2.groups))];
            } else if p2.groups != "" {
              var groups := Split(p.attrs.groups, ',') + Split(p2.groups, ',');
              projects := projects[i := projects[i].(attrs := projects[i].attrs.(groups := Join(groups, ',')))];
            }
            if p2.revision != "" {
              projects := projects[i := projects[i].(attrs := projects[i].attrs.(revision := p2.revision))];
            }
          }
        }
      }
    }

    /** `Merge`.  On an error the manifest keeps what had been merged so far. */
    method Merge(m: Manifest) returns (error: Option<Error>)
      modifies this
      ensures match Merged(old(Value()), m)
              case Ok(v) => error == None && Value() == v
              case Err(e) => error == Some(e) && LeftBehind(old(Value()), m, e, Value())
    {
      hide FlattenAll, MergeRemotes, Unique, ExtendAll, Without, RemotesStopped, ProjectsStopped;
      if m.notice != "" {
        if notice == "" {
          notice := m.notice;
        } else {
          return Some(DuplicateNotice);
        }
      }
      var ok := AddRemotes(m.remotes);
      if !ok { return Some(DuplicateRemote); }
      if m.defaults.Some? {
        if m.defaults.value.overrides || defaults.None? {
          defaults := m.defaults;
        } else if defaults != m.defaults {
          return Some(DuplicateDefault);
        }
      }
      if m.server.Some? {
        if m.server.value.overrides || server.None? {
          server := m.server;
        } else if server != m.server {
          return Some(DuplicateServer);
        }
      }
      ok := AddProjects(m);
      if !ok { return Some(DuplicatePath); }
      RemoveProjects(m.removals);
      ExtendProjects(m.extensions);
      return None;
    }
  }

  lemma MergeRemoteHit(vs: seq<Remote>, r: Remote)
    requires vs != [] && vs[0].name == r.name
    ensures MergeRemote(vs, r) == if r.overrides then Some([r] + vs[1..]) else if r == vs[0] then Some(vs) else None
  {
  }

  lemma MergeRemoteMiss(r: Remote)
    ensures MergeRemote([], r) == Some([r])
  {
  }

  lemma MergeRemotesNone(vs: seq<Remote>)
    ensures MergeRemotes(vs, []) == Some(vs)
  {
  }
}
