/** workspace/repo-workspace.go: the git directories that go with those of obsolete paths,
    because one lies in another or below a directory that becomes empty. */
module GitDirs {
  import opened Text
  import opened LexicalPath
  import opened ObsoletePaths

  // --------------------------------------- git directories that are in others

  /** One git directory contains another exactly when the other's path goes
      through a directory named like the first one's path with ".git". */
  lemma GitDirsNest(root: string, p: string, r: string)
    requires IsRoot(root) && Inside(p) && Inside(r) && Kept(p) != Kept(r)
    ensures Under(GitDir(root, p), GitDir(root, r)) <==> GitNames(p) < Kept(r)
  {
    hide WorkDir, GitDir, Inside, Kept, IsRoot;
    PlacesOf(root, p);
    PlacesOf(root, r);
    StripBase(Kept(root) + PROJECTS_DIR, GitNames(p), GitNames(r));
    LastDiffers(Kept(p), Kept(r), GitNames(p), GitNames(r));
  }

  lemma StripBase(base: seq<string>, a: seq<string>, b: seq<string>)
    ensures base + a <= base + b <==> a <= b
  {
    assert (base + a)[|base|..] == a && (base + b)[|base|..] == b;
    if base + a <= base + b {
      assert forall k | 0 <= k < |a| :: a[k] == (base + a)[|base| + k] == (base + b)[|base| + k] == b[k];
    }
  }

  lemma LastDiffers(p: seq<string>, r: seq<string>, a: seq<string>, b: seq<string>)
    requires p != [] && r != [] && p != r
    requires a == p[..|p| - 1] + [p[|p| - 1] + ".git"] && b == r[..|r| - 1] + [r[|r| - 1] + ".git"]
    ensures a <= b <==> a < r
  {
    if |a| < |b| {
      assert b[..|a|] == r[..|a|];
    } else if a == b {
      SameLast(p, r);
    } else {
      assert |a| >= |r|;
    }
  }

  lemma SameLast(a: seq<string>, b: seq<string>)
    requires a != [] && b != []
    requires a[..|a| - 1] + [a[|a| - 1] + ".git"] == b[..|b| - 1] + [b[|b| - 1] + ".git"]
    ensures a == b
  {
    var x := a[..|a| - 1] + [a[|a| - 1] + ".git"];
    assert x[..|a| - 1] == a[..|a| - 1] && x[..|b| - 1] == b[..|b| - 1];
    assert x[|a| - 1] == a[|a| - 1] + ".git" == b[|b| - 1] + ".git";
    assert a[|a| - 1] == (a[|a| - 1] + ".git")[..|a[|a| - 1]|];
    assert b[|b| - 1] == (b[|b| - 1] + ".git")[..|b[|b| - 1]|];
    assert a == a[..|a| - 1] + [a[|a| - 1]] && b == b[..|b| - 1] + [b[|b| - 1]];
  }

  lemma NamesOfA()
    ensures Inside("a") && GitNames("a") == ["a.git"]
  {
    hide Split, Reduce, Join;
    SplitWhole("a", '/');
    ReducePlain(false, [], ["a"]);
    assert [] + ["a"] == ["a"];
    JoinSingle("a");
    assert "a" + ".git" == "a.git" && ["a"][..0] == [];
  }

  lemma NamesOfNested()
    ensures Kept("a.git/b") == ["a.git", "b"] && Clean("a.git/b") == "a.git/b"
  {
    hide Split, Reduce, Join;
    SplitWhole("a.git", '/');
    SplitWhole("b", '/');
    SplitConcat("a.git", '/', "b");
    assert "a.git" + ['/'] + "b" == "a.git/b";
    assert Split("a.git/b", '/') == ["a.git", "b"];
    ReducePlain(false, [], ["a.git", "b"]);
    assert [] + ["a.git", "b"] == ["a.git", "b"];
    JoinCons("a.git", ["b"], '/');
    assert ["a.git"] + ["b"] == ["a.git", "b"];
    JoinSingle("b");
  }

  /** Two paths of which one's git directory lies in the other's. */
  lemma NestedGitDirExists()
    ensures Inside("a") && Inside("a.git/b") && GitNames("a") < Kept("a.git/b") && Kept("a.git/b")[0] != ".repo"
  {
    hide Kept, Clean, GitNames;
    NamesOfA();
    NamesOfNested();
    assert ["a.git"] < ["a.git", "b"];
    assert "a.git/b"[0] == 'a' && |"a.git/b"| == 7;
  }

  // ------------------------------------- exactly when a living git directory goes

  /** An obsolete path whose git directory is there and whose worktree is not. */
  ghost predicate Gone(root: string, disk: set<string>, paths: seq<string>, q: string) {
    q in paths && Inside(Clean(q)) && WorkDir(root, Clean(q)) !in disk && GitDir(root, Clean(q)) in disk
  }

  /** Everything on the disk is named by a clean absolute path. */
  ghost predicate CleanDisk(disk: set<string>) {
    forall x | x in disk :: Rooted(x) && Clean(x) == x
  }

  lemma UnderTransitive(a: string, b: string, c: string)
    requires Under(a, b) && Under(b, c)
    ensures Under(a, c)
  {
    hide Kept;
  }

  /** Clean paths are named by their elements. */
  lemma SameElements(x: string, y: string)
    requires Rooted(x) && Rooted(y) && Clean(x) == x && Clean(y) == y && Kept(x) == Kept(y)
    ensures x == y
  {
    hide Kept;
  }

  lemma BelowRoot(root: string, x: string)
    requires IsRoot(root) && Rooted(x) && Clean(x) == x && Kept(root) <= Kept(x)
    ensures root <= x
  {
    hide Kept, Join;
    var rest := Kept(x)[|Kept(root)|..];
    assert Kept(root) + rest == Kept(x);
    JoinPrefix(Kept(root), rest);
  }

  lemma DirIsClean(path: string)
    ensures Clean(Dir(path)) == Dir(path)
  {
    DirIsAbove(path);
  }

  /** One step cannot take `g` away and leave what is below it, unless something resists. */
  lemma StepTakesAll(root: string, stuck: set<string>, disk: set<string>, path: string, g: string, d: string)
    requires IsRoot(root) && Under(g, d) && !Blocked(disk, stuck, d) && (g in disk || d !in disk)
    ensures var after := Examine(root, false, stuck, disk, path).disk;
      after <= disk && (g in after || d !in after)
  {
    hide WorkDir, GitDir, Sweep, Kept, Rooted, Bad;
    var after := Examine(root, false, stuck, disk, path).disk;
    ExamineRemoves(root, false, stuck, disk, path, g);
    if g in disk && g !in after {
      var gitDir := GitDir(root, Clean(path));
      var rest := RemoveAll(disk, stuck, gitDir);
      SweepRemoves(root, rest, stuck, gitDir, g);
      if g !in rest { UnderTransitive(gitDir, g, d); }
    }
  }

  /** What lies in the git directory of a gone path goes with it, unless it resists. */
  lemma {:induction false} GoesWith(root: string, stuck: set<string>, disk: set<string>, paths: seq<string>,
                                    q: string, d: string)
    requires IsRoot(root) && q in paths && Inside(Clean(q)) && WorkDir(root, Clean(q)) !in disk
    requires Under(GitDir(root, Clean(q)), d) && !Blocked(disk, stuck, d)
    requires GitDir(root, Clean(q)) in disk || d !in disk
    ensures d !in ExamineAll(root, false, stuck, disk, paths).disk
    decreases paths
  {
    hide WorkDir, GitDir, Bad, IsRoot, Under, Sweep, Blocked;
    var first := Examine(root, false, stuck, disk, paths[0]);
    var p := Clean(q);
    StepTakesAll(root, stuck, disk, paths[0], GitDir(root, p), d);
    if Blocked(first.disk, stuck, d) { BlockedBefore(disk, first.disk, stuck, d); }
    RemovedOnly(root, false, stuck, first.disk, paths[1..], d);
    if Clean(paths[0]) == p {
      NeverBeyondRoot(root, p);
      SweepRemoves(root, RemoveAll(disk, stuck, GitDir(root, p)), stuck, GitDir(root, p), d);
    } else {
      GoesWith(root, stuck, first.disk, paths[1..], q, d);
    }
  }

  /** A swept directory in which nothing is left is removed. */
  lemma {:induction false} SweepClears(root: string, disk: set<string>, stuck: set<string>, dir: string, y: string)
    requires IsRoot(root) && Rooted(dir) && Clean(dir) == dir && Rooted(y) && Clean(y) == y
    requires Kept(root) <= Kept(y) <= Kept(dir) && y !in stuck
    requires forall z | z in Sweep(root, disk, stuck, dir) :: z == y || !Under(y, z)
    ensures y !in Sweep(root, disk, stuck, dir)
    decreases |Kept(dir)|
  {
    hide Kept, Dir, IsRoot, Clean;
    BelowRoot(root, dir);
    DirIsAbove(dir);
    DirIsClean(dir);
    var rest := Remove(disk, stuck, dir);
    if Kept(y) == Kept(dir) {
      SameElements(y, dir);
      SweepRemoves(root, rest, stuck, Dir(dir), y);
      forall x | x in disk && x != y && Under(y, x) ensures Kept(dir) != [] && x in Sweep(root, rest, stuck, Dir(dir)) {
        SweepRemoves(root, rest, stuck, Dir(dir), x);
      }
    } else {
      SweepClears(root, rest, stuck, Dir(dir), y);
    }
  }

  /** A step that takes the last thing below `y` takes `y` too, unless it resists. */
  lemma StepClears(root: string, stuck: set<string>, disk: set<string>, path: string, y: string, z: string)
    requires IsRoot(root) && Rooted(y) && Clean(y) == y && Kept(root) <= Kept(y) && !Blocked(disk, stuck, y)
    requires z in disk && z != y && Under(y, z)
    requires forall x | x in Examine(root, false, stuck, disk, path).disk :: x == y || !Under(y, x)
    ensures y !in Examine(root, false, stuck, disk, path).disk
  {
    hide WorkDir, Sweep, Kept, Rooted, Bad, IsRoot, Clean, JoinPath;
    var gitDir := GitDir(root, Clean(path));
    var after, rest := Examine(root, false, stuck, disk, path).disk, RemoveAll(disk, stuck, gitDir);
    assert z !in after;
    ExamineRemoves(root, false, stuck, disk, path, z);
    assert Under(gitDir, z) || Under(z, gitDir);
    SweepRemoves(root, rest, stuck, gitDir, y);
    if Under(gitDir, y) {
      assert y !in rest;
    } else {
      assert Under(y, gitDir) by {
        if Under(z, gitDir) { UnderTransitive(y, z, gitDir); } else { ComparableUnder(y, gitDir, z); }
      }
      if Blocked(disk, stuck, gitDir) { BlockedAbove(disk, stuck, y, gitDir); }
      UnderSelf(y);
      PlacesOf(root, Clean(path));
      CleanIdempotent(JoinPath(root, ShortGitDir(Clean(path))));
      if y in after { SweepClears(root, rest, stuck, gitDir, y); }
    }
  }

  lemma ComparableUnder(a: string, b: string, x: string)
    requires Under(a, x) && Under(b, x)
    ensures Under(a, b) || Under(b, a)
  {
    hide Kept;
    var i, j := Kept(a), Kept(b);
    assert i == Kept(x)[..|i|] && j == Kept(x)[..|j|];
  }

  lemma BlockedAbove(disk: set<string>, stuck: set<string>, a: string, b: string)
    requires Under(a, b) && Blocked(disk, stuck, b)
    ensures Blocked(disk, stuck, a)
  {
    hide Kept;
    var y :| y in disk * stuck && Under(b, y);
    UnderTransitive(a, b, y);
  }

  /** So the git directory of an obsolete path without a worktree goes, with all that is in it. */
  lemma GitDirLost(root: string, stuck: set<string>, disk: set<string>, paths: seq<string>, q: string)
    requires IsRoot(root) && q in paths && Inside(Clean(q)) && WorkDir(root, Clean(q)) !in disk
    requires var dir := GitDir(root, Clean(q));
      !Blocked(disk, stuck, dir) && (dir in disk || forall y | y in disk :: !Under(dir, y))
    ensures forall y | y in ExamineAll(root, false, stuck, disk, paths).disk :: !Under(GitDir(root, Clean(q)), y)
  {
    hide ExamineAll, WorkDir, GitDir, IsRoot, Clean, Inside, Under, Blocked;
    var dir := GitDir(root, Clean(q));
    forall y | y in ExamineAll(root, false, stuck, disk, paths).disk ensures !Under(dir, y) {
      RemovedOnly(root, false, stuck, disk, paths, y);
      if Under(dir, y) {
        if Blocked(disk, stuck, y) { BlockedAbove(disk, stuck, dir, y); }
        GoesWith(root, stuck, disk, paths, q, y);
      }
    }
  }

  /** A directory that held something and holds nothing in the end is gone. */
  lemma {:induction false} Cleared(root: string, stuck: set<string>, disk: set<string>, paths: seq<string>, y: string,
                                   z: string)
    requires IsRoot(root) && Rooted(y) && Clean(y) == y && Kept(root) <= Kept(y) && !Blocked(disk, stuck, y)
    requires z in disk && z != y && Under(y, z)
    requires forall x | x in ExamineAll(root, false, stuck, disk, paths).disk :: x == y || !Under(y, x)
    ensures y !in ExamineAll(root, false, stuck, disk, paths).disk
    decreases paths
  {
    hide Under, Examine, Blocked, IsRoot, Kept, Rooted, Clean;
    if paths != [] {
      var first := Examine(root, false, stuck, disk, paths[0]);
      ExamineRemoves(root, false, stuck, disk, paths[0], y);
      RemovedOnly(root, false, stuck, first.disk, paths[1..], y);
      if x :| x in first.disk && x != y && Under(y, x) {
        if Blocked(first.disk, stuck, y) { BlockedBefore(disk, first.disk, stuck, y); }
        Cleared(root, stuck, first.disk, paths[1..], y, x);
      } else {
        StepClears(root, stuck, disk, paths[0], y, z);
      }
    }
  }

  /** `y` lies in, or above, the git directory of a gone path. */
  ghost predicate Touched(root: string, disk: set<string>, paths: seq<string>, y: string) {
    exists q :: Gone(root, disk, paths, q) && (Under(GitDir(root, Clean(q)), y) || Under(y, GitDir(root, Clean(q))))
  }

  /** If all that is in a directory lies in, or above, git directories of gone paths, all of it goes. */
  lemma {:induction false} TouchedGoes(root: string, stuck: set<string>, disk: set<string>, paths: seq<string>,
                                       dir: string, y: string, depth: nat)
    requires IsRoot(root) && CleanDisk(disk) && dir in disk && Kept(root) <= Kept(dir) && !Blocked(disk, stuck, dir)
    requires forall x | x in disk && Under(dir, x) :: Touched(root, disk, paths, x)
    requires y in disk && Under(dir, y) && forall x | x in disk :: |Kept(x)| <= depth
    ensures y !in ExamineAll(root, false, stuck, disk, paths).disk
    decreases depth - |Kept(y)|
  {
    hide ExamineAll, WorkDir, GitDir, Kept, IsRoot, Clean, Inside, Blocked;
    var q :| Gone(root, disk, paths, q) && (Under(GitDir(root, Clean(q)), y) || Under(y, GitDir(root, Clean(q))));
    var g := GitDir(root, Clean(q));
    if Blocked(disk, stuck, y) { BlockedAbove(disk, stuck, dir, y); }
    if Under(g, y) {
      GoesWith(root, stuck, disk, paths, q, y);
    } else {
      var after := ExamineAll(root, false, stuck, disk, paths).disk;
      forall x | x in after && x != y ensures !Under(y, x) {
        RemovedOnly(root, false, stuck, disk, paths, x);
        if Under(y, x) {
          UnderTransitive(dir, y, x);
          DeeperBelow(y, x);
          TouchedGoes(root, stuck, disk, paths, dir, x, depth);
        }
      }
      assert g != y by { UnderSelf(y); }
      Cleared(root, stuck, disk, paths, y, g);
    }
  }

  lemma DeeperBelow(y: string, x: string)
    requires Rooted(x) && Rooted(y) && Clean(x) == x && Clean(y) == y && Under(y, x) && x != y
    ensures |Kept(y)| < |Kept(x)|
  {
    hide Kept, Clean;
    if |Kept(y)| == |Kept(x)| { SameElements(x, y); }
  }

  lemma {:induction false} DepthBound(disk: set<string>) returns (depth: nat)
    ensures forall x | x in disk :: |Kept(x)| <= depth
    decreases |disk|
  {
    hide Kept;
    if disk == {} {
      depth := 0;
    } else {
      var x :| x in disk;
      var d := DepthBound(disk - {x});
      depth := if |Kept(x)| > d then |Kept(x)| else d;
    }
  }

  /** What the loss of `r`'s git directory depends on: nothing in it resists, and either it
      lies in the git directory of a gone path, or such directories lie in it and there is
      nothing else in it. */
  ghost predicate Doomed(root: string, stuck: set<string>, disk: set<string>, paths: seq<string>, r: string) {
    var dir := GitDir(root, r);
    && !Blocked(disk, stuck, dir)
    && ((exists q :: Gone(root, disk, paths, q) && GitNames(Clean(q)) < Kept(r))
        || ((exists q :: Gone(root, disk, paths, q) && GitNames(r) < Kept(Clean(q)))
            && forall y | y in disk && y != dir && Under(dir, y) :: Touched(root, disk, paths, y)))
  }

  /** Where two of the git directories are. */
  lemma GoneApart(root: string, disk: set<string>, paths: seq<string>, q: string, r: string)
    requires IsRoot(root) && Inside(r) && WorkDir(root, r) in disk && Gone(root, disk, paths, q)
    ensures Under(GitDir(root, Clean(q)), GitDir(root, r)) <==> GitNames(Clean(q)) < Kept(r)
    ensures Under(GitDir(root, r), GitDir(root, Clean(q))) <==> GitNames(r) < Kept(Clean(q))
  {
    hide GitDir, GitNames, Inside, Kept, JoinPath, Clean;
    var p := Clean(q);
    if Kept(p) == Kept(r) {
      PlacesOf(root, p);
      PlacesOf(root, r);
      CleanIdempotent(JoinPath(root, p));
      CleanIdempotent(JoinPath(root, r));
      SameElements(WorkDir(root, p), WorkDir(root, r));
    }
    GitDirsNest(root, p, r);
    GitDirsNest(root, r, p);
  }

  /** The git directory of a path whose worktree is there goes exactly when it is doomed,
      and the worktree stays all the same. */
  lemma LivingGitDir(root: string, stuck: set<string>, disk: set<string>, paths: seq<string>, r: string)
    requires IsRoot(root) && CleanDisk(disk) && Inside(r) && WorkDir(root, r) in disk && GitDir(root, r) in disk
    requires Kept(r)[0] != ".repo" && OutsideRepo(paths)
    ensures WorkDir(root, r) in ExamineAll(root, false, stuck, disk, paths).disk
    ensures GitDir(root, r) !in ExamineAll(root, false, stuck, disk, paths).disk
            <==> Doomed(root, stuck, disk, paths, r)
  {
    hide ExamineAll, WorkDir, GitDir, Kept, IsRoot, Clean, Inside, Blocked, GitNames, Touched, Under, CleanDisk;
    var dir := GitDir(root, r);
    WorktreeStays(root, false, stuck, disk, paths, r);
    if dir !in ExamineAll(root, false, stuck, disk, paths).disk {
      LostIsDoomed(root, stuck, disk, paths, r);
    }
    if Doomed(root, stuck, disk, paths, r) {
      DoomedIsLost(root, stuck, disk, paths, r);
    }
  }

  lemma GoneThen(root: string, stuck: set<string>, disk: set<string>, paths: seq<string>, q: string, x: string)
    requires IsRoot(root) && q in paths && OutsideRepo(paths)
    requires Explains(root, disk, ExamineAll(root, false, stuck, disk, paths).disk, q, x)
    ensures Gone(root, disk, paths, q)
  {
    hide ExamineAll, WorkDir, GitDir, Kept, IsRoot, Clean, Inside, Under;
    if WorkDir(root, Clean(q)) in disk { WorktreeStays(root, false, stuck, disk, paths, Clean(q)); }
  }

  lemma LostIsDoomed(root: string, stuck: set<string>, disk: set<string>, paths: seq<string>, r: string)
    requires IsRoot(root) && Inside(r) && WorkDir(root, r) in disk && GitDir(root, r) in disk
    requires OutsideRepo(paths)
    requires GitDir(root, r) !in ExamineAll(root, false, stuck, disk, paths).disk
    ensures Doomed(root, stuck, disk, paths, r)
  {
    hide ExamineAll, WorkDir, GitDir, Kept, IsRoot, Clean, Inside, Blocked, GitNames, Under;
    var dir, after := GitDir(root, r), ExamineAll(root, false, stuck, disk, paths).disk;
    if Blocked(disk, stuck, dir) { BlockedStays(root, false, stuck, disk, paths, dir); }
    RemovedOnly(root, false, stuck, disk, paths, dir);
    var q :| q in paths && Explains(root, disk, after, q, dir);
    GoneThen(root, stuck, disk, paths, q, dir);
    GoneApart(root, disk, paths, q, r);
    if !(GitNames(Clean(q)) < Kept(r)) {
      forall y | y in disk && y != dir && Under(dir, y) ensures Touched(root, disk, paths, y) {
        RemovedOnly(root, false, stuck, disk, paths, y);
        var q' :| q' in paths && Explains(root, disk, after, q', y);
        GoneThen(root, stuck, disk, paths, q', y);
      }
    }
  }

  lemma DoomedIsLost(root: string, stuck: set<string>, disk: set<string>, paths: seq<string>, r: string)
    requires IsRoot(root) && CleanDisk(disk) && Inside(r) && WorkDir(root, r) in disk && GitDir(root, r) in disk
    requires Doomed(root, stuck, disk, paths, r)
    ensures GitDir(root, r) !in ExamineAll(root, false, stuck, disk, paths).disk
  {
    hide ExamineAll, WorkDir, GitDir, Kept, IsRoot, Clean, Inside, Blocked, GitNames, Under, CleanDisk;
    var dir := GitDir(root, r);
    if exists q :: Gone(root, disk, paths, q) && GitNames(Clean(q)) < Kept(r) {
      var q :| Gone(root, disk, paths, q) && GitNames(Clean(q)) < Kept(r);
      GoneApart(root, disk, paths, q, r);
      GoesWith(root, stuck, disk, paths, q, dir);
    } else {
      var q :| Gone(root, disk, paths, q) && GitNames(r) < Kept(Clean(q));
      GoneApart(root, disk, paths, q, r);
      assert Touched(root, disk, paths, dir);
      var depth := DepthBound(disk);
      PlacesOf(root, r);
      UnderSelf(dir);
      TouchedGoes(root, stuck, disk, paths, dir, dir, depth);
    }
  }
}
