/** workspace/repo-workspace.go: the list of worktrees in `project.list`, and what
    happens to worktrees that no project has any more.  The disk is the set
    of the clean absolute paths that exist.  Strings are sequences of runes here;
    their order is that of the UTF-8 bytes. */
module ObsoletePaths {
  import opened Text
  import opened LexicalPath

  // ------------------------------------------------------ old minus new paths

  /** The two-index merge, on sorted lists. */
  function Minus(a: seq<string>, b: seq<string>): seq<string>
    decreases |a| + |b|
  {
    if a == [] then []
    else if b == [] then a
    else if Less(a[0], b[0]) then [a[0]] + Minus(a[1..], b)
    else if Less(b[0], a[0]) then Minus(a, b[1..])
    else Minus(a[1..], b[1..])
  }

  function Obsolete(oldPaths: seq<string>, newPaths: seq<string>): seq<string> {
    Minus(SortStrings(oldPaths), SortStrings(newPaths))
  }

  /** `sort.Strings`, in place. */
  method SortInPlace(a: array<string>)
    modifies a
    ensures a[..] == SortStrings(old(a[..]))
  {
    hide SortStrings;
    var sorted := SortStrings(a[..]);
    for i := 0 to a.Length
      invariant a[..i] == sorted[..i]
      invariant |sorted| == a.Length
    {
      a[i] := sorted[i];
    }
  }

  method FindObsoletePaths(oldPaths: array<string>, newPaths: array<string>) returns (result: seq<string>)
    requires oldPaths != newPaths
    modifies oldPaths, newPaths
    ensures oldPaths[..] == SortStrings(old(oldPaths[..]))
    ensures newPaths[..] == SortStrings(old(newPaths[..]))
    ensures result == Obsolete(old(oldPaths[..]), old(newPaths[..]))
  {
    hide Less, SortStrings, Minus;
    result := [];
    var i, j := 0, 0;
    SortInPlace(oldPaths);
    SortInPlace(newPaths);
    ghost var a, b := oldPaths[..], newPaths[..];
    assert a[0..] == a && b[0..] == b;
    while i < oldPaths.Length && j < newPaths.Length
      invariant 0 <= i <= oldPaths.Length && 0 <= j <= newPaths.Length
      invariant oldPaths[..] == a && newPaths[..] == b
      invariant result + Minus(a[i..], b[j..]) == Minus(a, b)
      decreases oldPaths.Length - i + newPaths.Length - j
    {
      MergeStep(result, a, b, i, j);
      assert a[i] == oldPaths[i] && b[j] == newPaths[j];
      if Less(oldPaths[i], newPaths[j]) {
        result := result + [oldPaths[i]];
        i := i + 1;
      } else if Less(newPaths[j], oldPaths[i]) {
        j := j + 1;
      } else {
        i := i + 1;
        j := j + 1;
      }
    }
    NothingTaken(a[i..], b[j..]);
    while i < oldPaths.Length
      invariant 0 <= i <= oldPaths.Length
      invariant oldPaths[..] == a && newPaths[..] == b
      invariant result + a[i..] == Minus(a, b)
    {
      assert a[i..] == [a[i]] + a[i + 1..];
      assert result + ([a[i]] + a[i + 1..]) == result + [a[i]] + a[i + 1..];
      result := result + [oldPaths[i]];
      i := i + 1;
    }
  }

  /** One round of the merge. */
  lemma MergeStep(result: seq<string>, a: seq<string>, b: seq<string>, i: nat, j: nat)
    requires i < |a| && j < |b|
    ensures result + Minus(a[i..], b[j..]) ==
      if Less(a[i], b[j]) then result + [a[i]] + Minus(a[i + 1..], b[j..])
      else if Less(b[j], a[i]) then result + Minus(a[i..], b[j + 1..])
      else result + Minus(a[i + 1..], b[j + 1..])
  {
    hide Less, Minus;
    MinusStep(a[i..], b[j..]);
    assert a[i..][1..] == a[i + 1..] && b[j..][1..] == b[j + 1..];
    var more := Minus(a[i + 1..], b[j..]);
    assert result + ([a[i]] + more) == result + [a[i]] + more;
  }

  lemma MinusStep(a: seq<string>, b: seq<string>)
    requires a != [] && b != []
    ensures Minus(a, b) ==
      if Less(a[0], b[0]) then [a[0]] + Minus(a[1..], b)
      else if Less(b[0], a[0]) then Minus(a, b[1..])
      else Minus(a[1..], b[1..])
  {
  }

  lemma {:induction false} SmallerAbsent(x: string, ss: seq<string>)
    requires Sorted(ss) && ss != [] && Less(x, ss[0])
    ensures x !in ss
  {
    forall k | 0 <= k < |ss| ensures ss[k] != x {
      if k > 0 { LessTotal(ss[0], ss[k]); }
      LessTotal(x, ss[0]);
    }
  }

  /** On sorted lists the merge is the multiset difference, again sorted. */
  lemma {:induction false} MinusIsDifference(a: seq<string>, b: seq<string>)
    requires Sorted(a) && Sorted(b)
    ensures multiset(Minus(a, b)) == multiset(a) - multiset(b)
    ensures Sorted(Minus(a, b))
    decreases |a| + |b|
  {
    hide Less, Minus, Sorted;
    if a == [] || b == [] {
      assert Minus(a, b) == a by { NothingTaken(a, b); }
    } else {
      MinusStep(a, b);
      LessTotal(a[0], b[0]);
      SortedTail(a);
      SortedTail(b);
      if Less(a[0], b[0]) {
        MinusIsDifference(a[1..], b);
        SmallerAbsent(a[0], b);
        TakeLeft(a[0], multiset(a[1..]), multiset(b));
        SortedCons(a[0], a[1..], Minus(a[1..], b));
      } else if Less(b[0], a[0]) {
        MinusIsDifference(a, b[1..]);
        SmallerAbsent(b[0], a);
        DropRight(b[0], multiset(a), multiset(b[1..]));
      } else {
        MinusIsDifference(a[1..], b[1..]);
      }
    }
  }

  lemma NothingTaken(a: seq<string>, b: seq<string>)
    requires a == [] || b == []
    ensures Minus(a, b) == a
  {
  }

  lemma SortedTail(a: seq<string>)
    requires a != [] && Sorted(a)
    ensures Sorted(a[1..]) && a == [a[0]] + a[1..] && multiset(a) == multiset{a[0]} + multiset(a[1..])
  {
    assert a == [a[0]] + a[1..];
  }

  lemma TakeLeft(x: string, a: multiset<string>, b: multiset<string>)
    requires x !in b
    ensures (multiset{x} + a) - b == multiset{x} + (a - b)
  {
  }

  lemma DropRight(y: string, a: multiset<string>, b: multiset<string>)
    requires y !in a
    ensures a - (multiset{y} + b) == a - b
  {
  }

  lemma SortedCons(x: string, rest: seq<string>, part: seq<string>)
    requires Sorted([x] + rest) && Sorted(part) && multiset(part) <= multiset(rest)
    ensures Sorted([x] + part)
  {
    hide Less;
    forall j | 0 <= j < |part| ensures LessEq(x, part[j]) {
      assert part[j] in multiset(part) && part[j] in multiset(rest) && part[j] in rest;
      var k :| 0 <= k < |rest| && rest[k] == part[j];
      assert ([x] + rest)[k + 1] == rest[k];
      assert LessEq(([x] + rest)[0], ([x] + rest)[k + 1]);
    }
  }

  /** The obsolete paths: old ones, each as often as it is left when the new ones
      are taken away, in ascending order. */
  lemma ObsoleteIsDifference(oldPaths: seq<string>, newPaths: seq<string>)
    ensures multiset(Obsolete(oldPaths, newPaths)) == multiset(oldPaths) - multiset(newPaths)
    ensures Sorted(Obsolete(oldPaths, newPaths))
  {
    SortSorts(oldPaths);
    SortSorts(newPaths);
    MinusIsDifference(SortStrings(oldPaths), SortStrings(newPaths));
  }

  // -------------------------------------------------------------- the disk

  /** `path` is `dir` or lies below it. */
  predicate Under(dir: string, path: string) {
    Rooted(dir) == Rooted(path) && Kept(dir) <= Kept(path)
  }

  /** Something at or below `dir` cannot be removed. */
  predicate Blocked(disk: set<string>, stuck: set<string>, dir: string) {
    exists y | y in disk * stuck :: Under(dir, y)
  }

  /** `os.RemoveAll`: removes what it can; it fails if something stays. */
  function RemoveAll(disk: set<string>, stuck: set<string>, dir: string): set<string> {
    set x | x in disk && !(Under(dir, x) && !Blocked(disk, stuck, x))
  }

  /** `os.Remove` of a directory: only if nothing is in it. */
  function Remove(disk: set<string>, stuck: set<string>, dir: string): set<string> {
    if dir in stuck || exists x | x in disk :: x != dir && Under(dir, x) then disk else disk - {dir}
  }

  /** `filepath.Dir` of a clean path. */
  function Dir(path: string): (dir: string)
  {
    var kept := Kept(path);
    Render(Rooted(path), if kept == [] then [] else kept[..|kept| - 1])
  }

  lemma DirIsAbove(path: string)
    ensures Rooted(Dir(path)) == Rooted(path)
    ensures Kept(Dir(path)) == if Kept(path) == [] then [] else Kept(path)[..|Kept(path)| - 1]
  {
    hide Split, Join, Reduce, Kept;
    CleanIsReduced(path);
    var kept := Kept(path);
    RenderRoundTrip(Rooted(path), if kept == [] then [] else kept[..|kept| - 1]);
  }

  /** `removeEmptyDirs`: upwards from `dir`, as long as the path begins with `root`. */
  function Sweep(root: string, disk: set<string>, stuck: set<string>, dir: string): set<string>
    decreases |Kept(dir)|
  {
    if !(root <= dir) then disk
    else
      var rest := Remove(disk, stuck, dir);
      DirIsAbove(dir);
      if Kept(dir) == [] then rest else Sweep(root, rest, stuck, Dir(dir))
  }

  // ------------------------------------------------------------ the workspace

  /** The path is skipped with a complaint, and not listed any more. */
  predicate Bad(p: string) {
    p == "" || p == "." || p == ".." || "./" <= p || "../" <= p
  }

  /** Where the worktree of a listed path is. */
  function WorkDir(root: string, p: string): string {
    Clean(JoinPath(root, p))
  }

  /** `ShortGitDir` */
  function ShortGitDir(p: string): string {
    Clean(".repo/projects/" + p + ".git")
  }

  function GitDir(root: string, p: string): string {
    Clean(JoinPath(root, ShortGitDir(p)))
  }

  /** The disk afterwards, and the paths that stay listed. */
  datatype Outcome = Outcome(disk: set<string>, remains: seq<string>) {
    function After(remains: seq<string>): Outcome {
      Outcome(disk, remains + this.remains)
    }
  }

  /** What happens to one obsolete path. */
  function Examine(root: string, mirror: bool, stuck: set<string>, disk: set<string>, path: string): Outcome {
    var p := Clean(path);
    var work, gitDir := WorkDir(root, p), GitDir(root, p);
    if Bad(p) || !(root <= work) || work == root then Outcome(disk, [])
    else if work in disk then Outcome(disk, [p])
    else if mirror || gitDir !in disk then Outcome(disk, [])
    else
      var rest := RemoveAll(disk, stuck, gitDir);
      if Blocked(disk, stuck, gitDir) then Outcome(rest, [p]) else Outcome(Sweep(root, rest, stuck, gitDir), [])
  }

  function ExamineAll(root: string, mirror: bool, stuck: set<string>, disk: set<string>, paths: seq<string>): Outcome
    decreases paths
  {
    if paths == [] then Outcome(disk, [])
    else
      var first := Examine(root, mirror, stuck, disk, paths[0]);
      ExamineAll(root, mirror, stuck, first.disk, paths[1..]).After(first.remains)
  }

  // ------------------------------------------------------- the list on disk

  /** The lines of `project.list`, trimmed, without the empty ones. */
  function NonEmpty(lines: seq<string>): seq<string> {
    if lines == [] then []
    else
      var line := TrimSpace(lines[0]);
      (if line == "" then [] else [line]) + NonEmpty(lines[1..])
  }

  function ReadPaths(text: string): seq<string> {
    NonEmpty(Split(text, '\n'))
  }

  function WritePaths(paths: seq<string>): string {
    if paths == [] then "" else paths[0] + "\n" + WritePaths(paths[1..])
  }

  datatype State = State(disk: set<string>, projectList: Option<string>) {
    /** The paths listed at the moment. */
    function Listed(): seq<string> {
      if projectList.None? then [] else ReadPaths(projectList.value)
    }
  }

  /** One `UpdateProjectList` for these project paths. */
  function Update(root: string, mirror: bool, st: State, projects: seq<string>, stuck: set<string>,
                  saveFails: bool): State {
    var outcome := ExamineAll(root, mirror, stuck, st.disk, Obsolete(st.Listed(), projects));
    State(outcome.disk,
          if saveFails then st.projectList else Some(WritePaths(SortStrings(projects) + outcome.remains)))
  }

  lemma GitDirNotEmpty(root: string, p: string)
    ensures GitDir(root, p) != ""
  {
    hide Clean, JoinPath;
    CleanIsReduced(JoinPath(root, ShortGitDir(p)));
  }

  lemma NoneYet(root: string, mirror: bool, stuck: set<string>, disk: set<string>, paths: seq<string>)
    ensures var all := ExamineAll(root, mirror, stuck, disk, paths);
      ExamineAll(root, mirror, stuck, disk, paths[0..]).After([]) == all
  {
    assert paths[0..] == paths;
    var all := ExamineAll(root, mirror, stuck, disk, paths);
    assert [] + all.remains == all.remains;
  }

  lemma OneMore(root: string, mirror: bool, stuck: set<string>, disk: set<string>, remains: seq<string>,
                paths: seq<string>, i: nat)
    requires i < |paths|
    ensures var first := Examine(root, mirror, stuck, disk, paths[i]);
      && ExamineAll(root, mirror, stuck, disk, paths[i..]).After(remains)
         == ExamineAll(root, mirror, stuck, first.disk, paths[i + 1..]).After(remains + first.remains)
      && remains + [] == remains
  {
    hide Examine;
    assert paths[i..][1..] == paths[i + 1..];
    var first := Examine(root, mirror, stuck, disk, paths[i]);
    var rest := ExamineAll(root, mirror, stuck, first.disk, paths[i + 1..]);
    assert remains + (first.remains + rest.remains) == remains + first.remains + rest.remains;
  }

  lemma NoneLeft(root: string, mirror: bool, stuck: set<string>, disk: set<string>, remains: seq<string>,
                 paths: seq<string>)
    ensures ExamineAll(root, mirror, stuck, disk, paths[|paths|..]).After(remains) == Outcome(disk, remains)
  {
    assert paths[|paths|..] == [] && remains + [] == remains;
  }

  class RepoWorkSpace {
    const root: string
    const mirror: bool
    var disk: set<string>
    var projectList: Option<string>

    constructor (root: string, mirror: bool, disk: set<string>)
      ensures this.root == root && this.mirror == mirror && this.disk == disk && projectList == None
    {
      this.root, this.mirror, this.disk, projectList := root, mirror, disk, None;
    }

    method RemoveEmptyDirs(start: string, stuck: set<string>)
      modifies this`disk
      ensures disk == Sweep(root, old(disk), stuck, start)
    {
      hide Remove, Kept, Dir;
      var dir := start;
      while root <= dir
        invariant Sweep(root, disk, stuck, dir) == Sweep(root, old(disk), stuck, start)
        decreases |Kept(dir)|
      {
        DirIsAbove(dir);
        disk := Remove(disk, stuck, dir);
        var up := Dir(dir);
        if Kept(dir) == [] { break; }
        dir := up;
      }
    }

    /** `clean` tells which worktrees have no uncommitted changes. */
    method RemoveObsoletePaths(oldPaths: array<string>, newPaths: array<string>, stuck: set<string>, clean: set<string>)
      returns (remains: seq<string>)
      requires oldPaths != newPaths
      modifies this`disk, oldPaths, newPaths
      ensures newPaths[..] == SortStrings(old(newPaths[..]))
      ensures Outcome(disk, remains)
           == ExamineAll(root, mirror, stuck, old(disk), Obsolete(old(oldPaths[..]), old(newPaths[..])))
    {
      hide WorkDir, GitDir, Clean, Sweep, RemoveAll, Blocked, Obsolete, SortStrings, Bad, ExamineAll, Outcome.After;
      remains := [];
      var obsolete := FindObsoletePaths(oldPaths, newPaths);
      ghost var all := ExamineAll(root, mirror, stuck, disk, obsolete);
      NoneYet(root, mirror, stuck, disk, obsolete);
      for i := 0 to |obsolete|
        invariant newPaths[..] == SortStrings(old(newPaths[..]))
        invariant ExamineAll(root, mirror, stuck, disk, obsolete[i..]).After(remains) == all
      {
        OneMore(root, mirror, stuck, disk, remains, obsolete, i);
        var p := Clean(obsolete[i]);
        if Bad(p) { continue; }
        var workdirAbs := WorkDir(root, p);
        var gitdirAbs := if mirror then "" else GitDir(root, p);
        if !(root <= workdirAbs) { continue; }
        assert workdirAbs == root + workdirAbs[|root|..];
        if workdirAbs[|root|..] == "" { continue; }
        assert GitDir(root, p) != "" by { GitDirNotEmpty(root, p); }
        if workdirAbs !in disk {
          if gitdirAbs != "" && gitdirAbs in disk {
            var failed := Blocked(disk, stuck, gitdirAbs);
            disk := RemoveAll(disk, stuck, gitdirAbs);
            if failed {
              remains := remains + [p];
            } else {
              RemoveEmptyDirs(gitdirAbs, stuck);
            }
          }
          continue;
        }
        if JoinPath(workdirAbs, ".git") !in disk {
          remains := remains + [p];
          continue;
        }
        if workdirAbs !in clean {
          remains := remains + [p];
          continue;
        }
        remains := remains + [p];
      }
      NoneLeft(root, mirror, stuck, disk, remains, obsolete);
    }

    /** `saveFails`: the lock file cannot be created, written or renamed. */
    method UpdateProjectList(projects: seq<string>, stuck: set<string>, clean: set<string>, saveFails: bool)
      returns (result: Option<seq<string>>)
      modifies this
      ensures State(disk, projectList)
              == Update(root, mirror, old(State(disk, projectList)), projects, stuck, saveFails)
      ensures result.None? <==> saveFails
      ensures result.Some? ==> projectList == Some(WritePaths(SortStrings(projects) + result.value))
    {
      hide ExamineAll, Obsolete, SortStrings, TrimSpace, Split, WritePaths;
      var newPaths := new string[|projects|](k requires 0 <= k < |projects| => projects[k]);
      assert newPaths[..] == projects;
      var oldPaths: seq<string> := [];
      if projectList.Some? {
        oldPaths := ReadProjectList(projectList.value);
      }
      var oldArray := new string[|oldPaths|](k requires 0 <= k < |oldPaths| => oldPaths[k]);
      assert oldArray[..] == oldPaths;
      var remains := RemoveObsoletePaths(oldArray, newPaths, stuck, clean);
      if saveFails { return None; }
      var text := "";
      text := WriteLines(text, newPaths[..]);
      text := WriteLines(text, remains);
      WriteConcat(newPaths[..], remains);
      assert "" + WritePaths(newPaths[..]) + WritePaths(remains) == WritePaths(newPaths[..] + remains);
      projectList := Some(text);
      return Some(remains);
    }
  }

  /** The reading loop of `UpdateProjectList`. */
  method ReadProjectList(text: string) returns (paths: seq<string>)
    ensures paths == ReadPaths(text)
  {
    hide TrimSpace, Split;
    paths := [];
    var lines := Split(text, '\n');
    assert lines[0..] == lines;
    for i := 0 to |lines|
      invariant paths + NonEmpty(lines[i..]) == ReadPaths(text)
    {
      assert lines[i..][1..] == lines[i + 1..];
      var line := TrimSpace(lines[i]);
      assert paths + ([line] + NonEmpty(lines[i + 1..])) == paths + [line] + NonEmpty(lines[i + 1..]);
      assert [] + NonEmpty(lines[i + 1..]) == NonEmpty(lines[i + 1..]);
      if line != "" { paths := paths + [line]; }
    }
    assert lines[|lines|..] == [] && paths + [] == paths;
  }

  /** A writing loop of `UpdateProjectList`. */
  method WriteLines(before: string, paths: seq<string>) returns (text: string)
    ensures text == before + WritePaths(paths)
  {
    text := before;
    assert paths[0..] == paths;
    for i := 0 to |paths|
      invariant text + WritePaths(paths[i..]) == before + WritePaths(paths)
    {
      assert paths[i..][1..] == paths[i + 1..];
      ghost var rest := WritePaths(paths[i + 1..]);
      assert text + (paths[i] + "\n" + rest) == text + (paths[i] + "\n") + rest;
      text := text + (paths[i] + "\n");
    }
    assert paths[|paths|..] == [] && text + "" == text;
  }

  lemma {:induction false} WriteConcat(a: seq<string>, b: seq<string>)
    ensures WritePaths(a + b) == WritePaths(a) + WritePaths(b)
  {
    if a == [] {
      assert a + b == b;
    } else {
      assert (a + b)[1..] == a[1..] + b;
      WriteConcat(a[1..], b);
    }
  }

  // ------------------------------------------------------------- where paths are

  ghost predicate IsRoot(root: string) {
    Rooted(root) && Clean(root) == root
  }

  /** A clean path that names something below the root. */
  predicate Inside(p: string) {
    Clean(p) == p && !Bad(p) && p != "/"
  }

  const PROJECTS_DIR := [".repo", "projects"]

  /** The elements of the git directory, below `.repo/projects`. */
  function GitNames(p: string): seq<string> {
    var names := Kept(p);
    if names == [] then [".git"] else names[..|names| - 1] + [names[|names| - 1] + ".git"]
  }

  lemma JoinSingle(s: string)
    ensures Join([s], '/') == s
  {
  }

  lemma {:induction false} JoinLast(parts: seq<string>, suffix: string, c: char)
    requires parts != []
    ensures Join(parts[..|parts| - 1] + [parts[|parts| - 1] + suffix], c) == Join(parts, c) + suffix
  {
    if |parts| > 1 {
      var rest := parts[1..];
      var more := rest[..|rest| - 1] + [rest[|rest| - 1] + suffix];
      JoinLast(rest, suffix, c);
      assert parts[..|parts| - 1] + [parts[|parts| - 1] + suffix] == [parts[0]] + more;
      JoinCons(parts[0], more, c);
      assert parts[0] + [c] + (Join(rest, c) + suffix) == parts[0] + [c] + Join(rest, c) + suffix;
    } else {
      assert parts[..0] + [parts[0] + suffix] == [parts[0] + suffix];
    }
  }

  lemma SplitSuffix(s: string, suffix: string, c: char)
    requires c !in suffix
    ensures var parts := Split(s, c); Split(s + suffix, c) == parts[..|parts| - 1] + [parts[|parts| - 1] + suffix]
  {
    hide Split, Join;
    var parts := Split(s, c);
    var more := parts[..|parts| - 1] + [parts[|parts| - 1] + suffix];
    JoinSplit(s, c);
    JoinLast(parts, suffix, c);
    assert forall k | 0 <= k < |more| :: c !in more[k];
    SplitJoin(more, c);
  }

  /** The elements of a path inside are plain names. */
  lemma InsideNames(p: string)
    requires Inside(p)
    ensures Kept(p) != [] && Plain(Kept(p))
    ensures Split(p, '/') == if Rooted(p) then [""] + Kept(p) else Kept(p)
  {
    hide Split, Reduce, Kept;
    CleanIsReduced(p);
    var names := Kept(p);
    assert names == [] ==> p == "/" || p == ".";
    if names != [] {
      SplitJoin(names, '/');
      if Rooted(p) {
        SplitConcat("", '/', Join(names, '/'));
        SplitWhole("", '/');
        assert "" + ['/'] + Join(names, '/') == p;
      } else {
        assert |names| > 1 ==> Join(names, '/') == names[0] + ['/'] + Join(names[1..], '/');
        assert names[0] == ".." ==> p == ".." || "../" <= p;
      }
      NoDots(Rooted(p), names);
    }
  }

  lemma JoinedNames(root: string, p: string)
    requires IsRoot(root)
    ensures Rooted(Clean(JoinPath(root, p))) && Kept(Clean(JoinPath(root, p)))
            == Reduce(true, Kept(root), Split(p, '/'))
  {
    hide Split, Reduce, Kept;
    KeptOfJoin(root, p);
    CleanIsReduced(root + "/" + p);
    CleanIsReduced(JoinPath(root, p));
  }

  lemma RepoNames()
    ensures Kept(".repo/projects") == PROJECTS_DIR && !Rooted(".repo/projects")
  {
    hide Split, Reduce, Join;
    SplitWhole(".repo", '/');
    SplitWhole("projects", '/');
    SplitConcat(".repo", '/', "projects");
    assert ".repo" + ['/'] + "projects" == ".repo/projects";
    assert Split(".repo/projects", '/') == PROJECTS_DIR;
    assert Plain(PROJECTS_DIR);
    ReducePlain(false, [], PROJECTS_DIR);
    assert [] + PROJECTS_DIR == PROJECTS_DIR;
  }

  lemma GitNamesPlain(p: string)
    requires Inside(p)
    ensures Plain(GitNames(p)) && Plain(PROJECTS_DIR + GitNames(p))
    ensures Split(p + ".git", '/') == if Rooted(p) then [""] + GitNames(p) else GitNames(p)
  {
    hide Split, Kept, Inside, Plain, GitNames;
    InsideNames(p);
    GitNamesOf(p);
    PlainGit(Kept(p));
    SplitSuffix(p, ".git", '/');
    LastOfRooted(Kept(p));
  }

  lemma GitNamesOf(p: string)
    requires Kept(p) != []
    ensures GitNames(p) == Kept(p)[..|Kept(p)| - 1] + [Kept(p)[|Kept(p)| - 1] + ".git"]
  {
  }

  lemma LastOfRooted(names: seq<string>)
    requires names != []
    ensures var all := [""] + names;
      all[..|all| - 1] + [all[|all| - 1] + ".git"] == [""] + (names[..|names| - 1] + [names[|names| - 1] + ".git"])
  {
  }

  lemma PlainGit(names: seq<string>)
    requires names != [] && Plain(names)
    ensures var git := names[..|names| - 1] + [names[|names| - 1] + ".git"]; Plain(git) && Plain(PROJECTS_DIR + git)
  {
    var git := names[..|names| - 1] + [names[|names| - 1] + ".git"];
    assert '/' !in names[|names| - 1] + ".git";
    assert Plain(git) && Plain(PROJECTS_DIR);
  }

  lemma ShortNames(p: string)
    requires Inside(p)
    ensures Split(ShortGitDir(p), '/') == PROJECTS_DIR + GitNames(p)
  {
    hide Split, Kept, Inside, GitNames, Join;
    GitNamesPlain(p);
    RepoNames();
    var repo := ".repo/projects";
    assert ".repo/projects/" + p + ".git" == repo + "/" + (p + ".git");
    KeptOfJoin(repo, p + ".git");
    ReducePlain(false, PROJECTS_DIR, GitNames(p));
    if Rooted(p) {
      ReduceConcat(false, PROJECTS_DIR, [""], GitNames(p));
      assert Reduce(false, PROJECTS_DIR, [""]) == PROJECTS_DIR;
    }
    SplitJoin(PROJECTS_DIR + GitNames(p), '/');
  }

  /** Worktrees lie below the root by their own names, git directories below
      `.repo/projects` by theirs. */
  lemma PlacesOf(root: string, p: string)
    requires IsRoot(root) && Inside(p)
    ensures Rooted(WorkDir(root, p)) && Kept(WorkDir(root, p)) == Kept(root) + Kept(p) && Kept(p) != []
    ensures Rooted(GitDir(root, p)) && Kept(GitDir(root, p)) == Kept(root) + PROJECTS_DIR + GitNames(p)
  {
    hide Split, Kept, Inside, GitNames, ShortGitDir, Clean, JoinPath;
    InsideNames(p);
    JoinedNames(root, p);
    ReducePlain(true, Kept(root), Kept(p));
    if Rooted(p) {
      ReduceConcat(true, Kept(root), [""], Kept(p));
      assert Reduce(true, Kept(root), [""]) == Kept(root);
    }
    GitNamesPlain(p);
    ShortNames(p);
    JoinedNames(root, ShortGitDir(p));
    ReducePlain(true, Kept(root), PROJECTS_DIR + GitNames(p));
  }

  lemma {:induction false} JoinPrefix(a: seq<string>, b: seq<string>)
    ensures Join(a, '/') <= Join(a + b, '/')
  {
    if a != [] {
      assert (a + b)[1..] == a[1..] + b;
      JoinPrefix(a[1..], b);
    }
  }

  /** No listed path leads out of the root: the check for that never fires. */
  lemma NeverBeyondRoot(root: string, p: string)
    requires IsRoot(root) && Inside(p)
    ensures root <= WorkDir(root, p) && WorkDir(root, p) != root
  {
    hide Kept, Inside, JoinPath, Join;
    PlacesOf(root, p);
    CleanIsReduced(root);
    CleanIsReduced(JoinPath(root, p));
    JoinPrefix(Kept(root), Kept(p));
  }

  // --------------------------------------------------------- what is removed

  lemma {:induction false} SweepRemoves(root: string, disk: set<string>, stuck: set<string>, dir: string, x: string)
    ensures Sweep(root, disk, stuck, dir) <= disk
    ensures x in disk && x !in Sweep(root, disk, stuck, dir)
        ==> Under(x, dir) && forall y | y in Sweep(root, disk, stuck, dir) :: !Under(x, y)
    decreases |Kept(dir)|
  {
    hide Kept, Rooted, Dir;
    if root <= dir {
      var rest := Remove(disk, stuck, dir);
      DirIsAbove(dir);
      if Kept(dir) != [] {
        SweepRemoves(root, rest, stuck, Dir(dir), x);
      }
    }
  }

  /** Why `x` went: an obsolete path without a worktree had its git directory
      removed, and `x` is part of it or a directory above it that became empty. */
  predicate Explains(root: string, disk: set<string>, after: set<string>, path: string, x: string) {
    var p := Clean(path);
    var gitDir := GitDir(root, p);
    && Inside(p) && WorkDir(root, p) !in after && gitDir in disk
    && (Under(gitDir, x) || (Under(x, gitDir) && forall y | y in after :: !Under(x, y)))
  }

  lemma ExamineRemoves(root: string, mirror: bool, stuck: set<string>, disk: set<string>, path: string, x: string)
    requires IsRoot(root)
    ensures var after := Examine(root, mirror, stuck, disk, path).disk;
      && after <= disk
      && (x in disk && x !in after ==> !mirror && Explains(root, disk, after, path, x))
  {
    hide Under, Sweep, WorkDir, GitDir, Bad;
    var p := Clean(path);
    CleanIdempotent(path);
    SlashIsRoot(root);
    SweepRemoves(root, RemoveAll(disk, stuck, GitDir(root, p)), stuck, GitDir(root, p), x);
  }

  lemma SlashIsRoot(root: string)
    requires IsRoot(root)
    ensures WorkDir(root, "/") == root
  {
    hide Kept, Join;
    JoinedNames(root, "/");
    SplitConcat("", '/', "");
    assert Split("/", '/') == ["", ""];
    assert ["", ""] == [""] + [""];
    ReduceConcat(true, Kept(root), [""], [""]);
    assert Reduce(true, Kept(root), [""]) == Kept(root);
    CleanIsReduced(root);
    CleanIsReduced(JoinPath(root, "/"));
  }

  /** Nothing is removed but git directories of obsolete paths that have no
      worktree, and directories above them that become empty. */
  lemma {:induction false} RemovedOnly(root: string, mirror: bool, stuck: set<string>, disk: set<string>,
                                       paths: seq<string>, x: string)
    requires IsRoot(root)
    ensures var after := ExamineAll(root, mirror, stuck, disk, paths).disk;
      && after <= disk
      && (x in disk && x !in after ==> !mirror && exists q :: q in paths && Explains(root, disk, after, q, x))
    decreases paths
  {
    hide Examine, Explains, IsRoot;
    if paths != [] {
      var first := Examine(root, mirror, stuck, disk, paths[0]);
      var after := ExamineAll(root, mirror, stuck, disk, paths).disk;
      ExamineRemoves(root, mirror, stuck, disk, paths[0], x);
      RemovedOnly(root, mirror, stuck, first.disk, paths[1..], x);
      assert paths[0] in paths && forall q | q in paths[1..] :: q in paths;
      if x in disk && x !in after {
        if x !in first.disk {
          ExplainsLater(root, disk, disk, first.disk, after, paths[0], x);
        } else {
          var q :| q in paths[1..] && Explains(root, first.disk, after, q, x);
          ExplainsLater(root, disk, first.disk, after, after, q, x);
        }
      }
    }
  }

  lemma ExplainsLater(root: string, disk: set<string>, later: set<string>, before: set<string>, after: set<string>,
                      q: string, x: string)
    requires Explains(root, later, before, q, x) && later <= disk && after <= before
    ensures Explains(root, disk, after, q, x)
  {
    hide Under, WorkDir, GitDir, Inside;
  }

  /** No worktree is removed, nor anything else that is neither in, nor above,
      `.repo/projects`. */
  lemma WorktreesStay(root: string, mirror: bool, stuck: set<string>, disk: set<string>, paths: seq<string>, x: string)
    requires IsRoot(root) && x in disk && Rooted(x)
    requires !(Kept(x) <= Kept(root) + PROJECTS_DIR) && !(Kept(root) + PROJECTS_DIR <= Kept(x))
    ensures x in ExamineAll(root, mirror, stuck, disk, paths).disk
  {
    hide Kept, ExamineAll, Inside, WorkDir, GitDir, IsRoot;
    RemovedOnly(root, mirror, stuck, disk, paths, x);
    var after := ExamineAll(root, mirror, stuck, disk, paths).disk;
    if x !in after {
      var q :| q in paths && Explains(root, disk, after, q, x);
      PlacesOf(root, Clean(q));
      Comparable(Kept(x), Kept(root) + PROJECTS_DIR, GitNames(Clean(q)));
    }
  }

  lemma Comparable(x: seq<string>, dir: seq<string>, names: seq<string>)
    requires dir + names <= x || x <= dir + names
    ensures x <= dir || dir <= x
  {
    if |x| <= |dir| {
      assert x <= dir + names ==> x == (dir + names)[..|x|] == dir[..|x|];
      assert dir + names <= x ==> names == [] && x == dir + names;
    } else {
      assert dir == (dir + names)[..|dir|];
      assert x <= dir + names ==> x[..|dir|] == (dir + names)[..|dir|];
      assert dir + names <= x ==> x[..|dir|] == (dir + names)[..|dir|];
    }
  }

  /** What becomes of an obsolete path: it stays listed while its worktree exists;
      without one it stays only if something in its git directory cannot be
      removed; and when it goes, so does its git directory. */
  lemma {:induction false} RemainsMeans(root: string, mirror: bool, stuck: set<string>, disk: set<string>,
                                        paths: seq<string>, q: string)
    requires IsRoot(root) && q in paths && Inside(q)
    ensures var out := ExamineAll(root, mirror, stuck, disk, paths);
      && (WorkDir(root, q) in out.disk ==> q in out.remains)
      && (!mirror && q !in out.remains ==> GitDir(root, q) !in out.disk)
    decreases paths
  {
    hide WorkDir, GitDir, Bad, IsRoot;
    var first := Examine(root, mirror, stuck, disk, paths[0]);
    var rest := ExamineAll(root, mirror, stuck, first.disk, paths[1..]);
    var out := ExamineAll(root, mirror, stuck, disk, paths);
    assert out.disk == rest.disk && out.remains == first.remains + rest.remains;
    RemovedOnly(root, mirror, stuck, first.disk, paths[1..], q);
    ExamineRemoves(root, mirror, stuck, disk, paths[0], q);
    if paths[0] == q {
      NeverBeyondRoot(root, q);
      GitDirGoes(root, mirror, stuck, disk, q);
      hide ExamineAll, Examine;
      assert forall r | r in first.remains :: r in out.remains;
    } else {
      RemainsMeans(root, mirror, stuck, first.disk, paths[1..], q);
    }
  }

  lemma GitDirGoes(root: string, mirror: bool, stuck: set<string>, disk: set<string>, q: string)
    requires IsRoot(root) && Inside(q)
    ensures var first := Examine(root, mirror, stuck, disk, q);
      && (WorkDir(root, q) in disk ==> first.remains == [q])
      && (!mirror && first.remains == [] ==> GitDir(root, q) !in first.disk)
  {
    hide WorkDir, GitDir, Sweep, Kept;
    NeverBeyondRoot(root, q);
    var gitDir := GitDir(root, q);
    assert Under(gitDir, gitDir);
    SweepRemoves(root, RemoveAll(disk, stuck, gitDir), stuck, gitDir, gitDir);
  }

  /** An obsolete path that stays listed, judged by the disk as it is: its worktree is
      there, or its git directory is and something in it resists removal. */
  predicate Stays(root: string, mirror: bool, stuck: set<string>, disk: set<string>, path: string) {
    var p := Clean(path);
    && Inside(p)
    && (WorkDir(root, p) in disk
        || (!mirror && GitDir(root, p) in disk && Blocked(disk, stuck, GitDir(root, p))))
  }

  lemma StaysAlone(root: string, mirror: bool, stuck: set<string>, disk: set<string>, path: string)
    requires IsRoot(root)
    ensures Examine(root, mirror, stuck, disk, path).remains
         == if Stays(root, mirror, stuck, disk, path) then [Clean(path)] else []
  {
    hide WorkDir, GitDir, Sweep, Clean, IsRoot, Bad, Blocked, RemoveAll;
    CleanIdempotent(path);
    SlashIsRoot(root);
    if Inside(Clean(path)) { NeverBeyondRoot(root, Clean(path)); }
  }

  /** Only obsolete paths stay listed; one without a worktree only if its git
      directory cannot be removed. */
  lemma {:induction false} RemainsOnly(root: string, mirror: bool, stuck: set<string>, disk: set<string>,
                                       paths: seq<string>)
    requires IsRoot(root) && forall q | q in paths :: Clean(q) == q
    ensures var remains := ExamineAll(root, mirror, stuck, disk, paths).remains;
      && multiset(remains) <= multiset(paths)
      && forall q | q in remains ::
           Inside(q) && (WorkDir(root, q) in disk || (!mirror && Blocked(disk, stuck, GitDir(root, q))))
    decreases paths
  {
    hide WorkDir, GitDir, IsRoot, Examine, Blocked, Inside, Clean;
    if paths != [] {
      var path := paths[0];
      assert path in paths && forall q | q in paths[1..] :: q in paths;
      assert paths == [path] + paths[1..];
      var first := Examine(root, mirror, stuck, disk, path);
      StaysAlone(root, mirror, stuck, disk, path);
      ExamineRemoves(root, mirror, stuck, disk, path, path);
      RemainsOnly(root, mirror, stuck, first.disk, paths[1..]);
      var rest := ExamineAll(root, mirror, stuck, first.disk, paths[1..]).remains;
      forall q | q in rest && Blocked(first.disk, stuck, GitDir(root, q))
        ensures Blocked(disk, stuck, GitDir(root, q)) {
        BlockedBefore(disk, first.disk, stuck, GitDir(root, q));
      }
    }
  }

  lemma UnderSelf(x: string)
    ensures Under(x, x)
  {
  }

  lemma {:induction false} SweepKeepsBlocked(root: string, disk: set<string>, stuck: set<string>, dir: string,
                                             x: string)
    requires x in disk && Blocked(disk, stuck, x)
    ensures var after := Sweep(root, disk, stuck, dir); x in after && Blocked(after, stuck, x)
    decreases |Kept(dir)|
  {
    hide Kept, Rooted, Dir;
    if root <= dir {
      var y :| y in disk * stuck && Under(x, y);
      var rest := Remove(disk, stuck, dir);
      assert y in rest * stuck && x in rest;
      DirIsAbove(dir);
      if Kept(dir) != [] { SweepKeepsBlocked(root, rest, stuck, Dir(dir), x); }
    }
  }

  /** What holds something that resists removal stays. */
  lemma {:induction false} BlockedStays(root: string, mirror: bool, stuck: set<string>, disk: set<string>,
                                        paths: seq<string>, x: string)
    requires x in disk && Blocked(disk, stuck, x)
    ensures x in ExamineAll(root, mirror, stuck, disk, paths).disk
    decreases paths
  {
    hide WorkDir, GitDir, Sweep, Bad;
    if paths != [] {
      var gitDir := GitDir(root, Clean(paths[0]));
      var rest := RemoveAll(disk, stuck, gitDir);
      var y :| y in disk * stuck && Under(x, y);
      assert Under(y, y) by { hide Kept; }
      assert Blocked(disk, stuck, y) && y in rest * stuck && x in rest;
      SweepKeepsBlocked(root, rest, stuck, gitDir, x);
      BlockedStays(root, mirror, stuck, Examine(root, mirror, stuck, disk, paths[0]).disk, paths[1..], x);
    }
  }

  lemma BlockedBefore(disk: set<string>, after: set<string>, stuck: set<string>, x: string)
    requires after <= disk && Blocked(after, stuck, x)
    ensures Blocked(disk, stuck, x)
  {
    hide Under;
  }

  /** No path names a worktree in `.repo`. */
  ghost predicate OutsideRepo(paths: seq<string>) {
    forall q | q in paths && Inside(Clean(q)) :: Kept(Clean(q))[0] != ".repo"
  }

  /** Worktrees outside `.repo` stay. */
  lemma WorktreeStays(root: string, mirror: bool, stuck: set<string>, disk: set<string>, paths: seq<string>, p: string)
    requires IsRoot(root) && Inside(p) && Kept(p)[0] != ".repo" && WorkDir(root, p) in disk
    ensures WorkDir(root, p) in ExamineAll(root, mirror, stuck, disk, paths).disk
  {
    hide WorkDir, GitDir, Inside, ExamineAll, Kept;
    PlacesOf(root, p);
    var k := Kept(root);
    assert (k + Kept(p))[|k|] == Kept(p)[0] && (k + PROJECTS_DIR)[|k|] == ".repo";
    WorktreesStay(root, mirror, stuck, disk, paths, WorkDir(root, p));
  }
}
