/** workspace/repo-workspace.go: what `project.list` holds after a run of `UpdateProjectList`,
    and over any history of runs. */
module ProjectList {
  import opened Text
  import opened LexicalPath
  import opened ObsoletePaths

  // ----------------------------------------- exactly which paths stay listed

  /** The paths that stay listed by the disk before the run, cleaned, in order. */
  function Staying(root: string, mirror: bool, stuck: set<string>, disk: set<string>, paths: seq<string>)
    : seq<string>
  {
    if paths == [] then []
    else
      (if Stays(root, mirror, stuck, disk, paths[0]) then [Clean(paths[0])] else [])
      + Staying(root, mirror, stuck, disk, paths[1..])
  }

  /** The run keeps exactly those: what it removes for one path is not what decides about another. */
  lemma {:induction false} RemainsExactly(root: string, mirror: bool, stuck: set<string>, disk: set<string>,
                                          paths: seq<string>)
    requires IsRoot(root) && OutsideRepo(paths)
    ensures ExamineAll(root, mirror, stuck, disk, paths).remains == Staying(root, mirror, stuck, disk, paths)
    decreases paths
  {
    hide Examine, Stays, IsRoot, Inside, Clean, Kept;
    if paths != [] {
      var first := Examine(root, mirror, stuck, disk, paths[0]);
      assert paths[0] in paths && forall q | q in paths[1..] :: q in paths;
      StaysAlone(root, mirror, stuck, disk, paths[0]);
      RemainsExactly(root, mirror, stuck, first.disk, paths[1..]);
      forall q | q in paths[1..]
        ensures Stays(root, mirror, stuck, disk, q) <==> Stays(root, mirror, stuck, first.disk, q) {
        StaysLater(root, mirror, stuck, disk, paths[0], q);
      }
      SameStaying(root, mirror, stuck, disk, first.disk, paths[1..]);
    }
  }

  lemma {:induction false} SameStaying(root: string, mirror: bool, stuck: set<string>, disk: set<string>,
                                       after: set<string>, paths: seq<string>)
    requires forall q | q in paths :: Stays(root, mirror, stuck, disk, q) <==> Stays(root, mirror, stuck, after, q)
    ensures Staying(root, mirror, stuck, disk, paths) == Staying(root, mirror, stuck, after, paths)
    decreases paths
  {
    hide Stays, Clean;
    if paths != [] {
      assert paths[0] in paths && forall q | q in paths[1..] :: q in paths;
      SameStaying(root, mirror, stuck, disk, after, paths[1..]);
    }
  }

  /** Examining another path does not change whether `q` stays. */
  lemma StaysLater(root: string, mirror: bool, stuck: set<string>, disk: set<string>, path: string, q: string)
    requires IsRoot(root) && OutsideRepo([q])
    ensures Stays(root, mirror, stuck, disk, q)
       <==> Stays(root, mirror, stuck, Examine(root, mirror, stuck, disk, path).disk, q)
  {
    hide WorkDir, GitDir, Examine, Clean, IsRoot, Inside, Under, Kept;
    var p, after := Clean(q), Examine(root, mirror, stuck, disk, path).disk;
    assert q in [q] && ExamineAll(root, mirror, stuck, disk, [path]).disk == after;
    ExamineRemoves(root, mirror, stuck, disk, path, q);
    if Inside(p) {
      var dir := GitDir(root, p);
      if WorkDir(root, p) in disk { WorktreeStays(root, mirror, stuck, disk, [path], p); }
      if Blocked(after, stuck, dir) { BlockedBefore(disk, after, stuck, dir); }
      if dir in disk && Blocked(disk, stuck, dir) {
        BlockedStays(root, mirror, stuck, disk, [path], dir);
        var y :| y in disk * stuck && Under(dir, y);
        UnderSelf(y);
        BlockedStays(root, mirror, stuck, disk, [path], y);
      }
    }
  }

  // --------------------------------------------------- what is read back

  /** What one written path is read as: its lines, trimmed, without the empty ones. */
  function ReadOne(path: string): seq<string> {
    NonEmpty(Split(path, '\n'))
  }

  function ReadBack(paths: seq<string>): seq<string> {
    if paths == [] then [] else ReadOne(paths[0]) + ReadBack(paths[1..])
  }

  lemma {:induction false} NonEmptyConcat(a: seq<string>, b: seq<string>)
    ensures NonEmpty(a + b) == NonEmpty(a) + NonEmpty(b)
  {
    hide TrimSpace;
    if a == [] {
      assert a + b == b;
    } else {
      var line := TrimSpace(a[0]);
      var first := if line == "" then [] else [line];
      assert (a + b)[0] == a[0] && (a + b)[1..] == a[1..] + b;
      NonEmptyConcat(a[1..], b);
      assert first + (NonEmpty(a[1..]) + NonEmpty(b)) == first + NonEmpty(a[1..]) + NonEmpty(b);
    }
  }

  /** Written paths are read back one by one. */
  lemma {:induction false} ReadWritten(paths: seq<string>)
    ensures ReadPaths(WritePaths(paths)) == ReadBack(paths)
  {
    hide Split, TrimSpace, NonEmpty;
    if paths == [] {
      SplitWhole("", '\n');
      assert NonEmpty([""]) == [] by { NoPath(); }
    } else {
      var p, rest := paths[0], WritePaths(paths[1..]);
      ReadWritten(paths[1..]);
      assert WritePaths(paths) == p + ['\n'] + rest;
      SplitConcat(p, '\n', rest);
      NonEmptyConcat(Split(p, '\n'), Split(rest, '\n'));
    }
  }

  lemma NoPath()
    ensures NonEmpty([""]) == []
  {
  }

  lemma {:induction false} ReadBackConcat(a: seq<string>, b: seq<string>)
    ensures ReadBack(a + b) == ReadBack(a) + ReadBack(b)
  {
    hide ReadOne;
    if a == [] {
      assert a + b == b;
    } else {
      assert (a + b)[1..] == a[1..] + b;
      ReadBackConcat(a[1..], b);
      assert ReadOne(a[0]) + (ReadBack(a[1..]) + ReadBack(b)) == ReadOne(a[0]) + ReadBack(a[1..]) + ReadBack(b);
    }
  }

  /** A path on one line without white space around it. */
  predicate Readable(path: string) {
    path != "" && Trimmed(path) && '\n' !in path
  }

  lemma ReadableBack(path: string)
    requires Readable(path)
    ensures ReadOne(path) == [path]
  {
    hide Split, TrimSpace, Trimmed;
    SplitWhole(path, '\n');
    TrimmedStays(path);
    assert NonEmpty([path][1..]) == [];
  }

  lemma {:induction false} ReadBackHas(paths: seq<string>, path: string)
    requires path in paths && Readable(path)
    ensures path in ReadBack(paths)
  {
    hide ReadOne, Readable;
    if paths[0] == path {
      ReadableBack(path);
    } else {
      ReadBackHas(paths[1..], path);
    }
  }

  lemma {:induction false} ReadBackSame(paths: seq<string>)
    requires forall p | p in paths :: Readable(p)
    ensures ReadBack(paths) == paths
  {
    hide ReadOne, Readable;
    if paths != [] {
      assert paths[0] in paths && forall p | p in paths[1..] :: p in paths;
      ReadableBack(paths[0]);
      ReadBackSame(paths[1..]);
    }
  }

  lemma {:induction false} NonEmptyReadable(lines: seq<string>)
    requires forall line | line in lines :: '\n' !in line
    ensures forall p | p in NonEmpty(lines) :: Readable(p)
  {
    hide TrimSpace, Trimmed;
    if lines != [] {
      var line := TrimSpace(lines[0]);
      assert lines[0] in lines && forall x | x in lines[1..] :: x in lines;
      NonEmptyReadable(lines[1..]);
      TrimSpaceTrims(lines[0]);
      var i, j :| 0 <= i <= j <= |lines[0]| && line == lines[0][i..j];
    }
  }

  /** Whatever is in the file, listed paths can be written and read again. */
  lemma ListedReadable(st: State)
    ensures forall p | p in st.Listed() :: Readable(p)
  {
    hide Split, NonEmpty, Readable;
    if st.projectList.Some? {
      assert forall line | line in Split(st.projectList.value, '\n') :: '\n' !in line;
      NonEmptyReadable(Split(st.projectList.value, '\n'));
    }
  }

  // ------------------------------------------------------------- over all runs

  function Remains(root: string, mirror: bool, st: State, projects: seq<string>, stuck: set<string>): seq<string> {
    ExamineAll(root, mirror, stuck, st.disk, Obsolete(st.Listed(), projects)).remains
  }

  /** After a run the list is what is read back of the projects' paths, in ascending
      order, and of the obsolete paths that remain. */
  lemma UpdateListed(root: string, mirror: bool, st: State, projects: seq<string>, stuck: set<string>)
    ensures Update(root, mirror, st, projects, stuck, false).Listed()
         == ReadBack(SortStrings(projects)) + ReadBack(Remains(root, mirror, st, projects, stuck))
  {
    hide ExamineAll, Obsolete, SortStrings, ReadPaths, WritePaths, ReadBack;
    var sorted, remains := SortStrings(projects), Remains(root, mirror, st, projects, stuck);
    ReadWritten(sorted + remains);
    ReadBackConcat(sorted, remains);
  }

  /** The obsolete paths that will stay listed, by the disk and the list before the run. */
  function WillStay(root: string, mirror: bool, st: State, projects: seq<string>, stuck: set<string>)
    : seq<string>
  {
    Staying(root, mirror, stuck, st.disk, Obsolete(st.Listed(), projects))
  }

  /** When, by the state before the run, a path would be listed twice: one of the projects'
      paths, one of those that stay, or one of both. */
  ghost predicate Clashes(root: string, mirror: bool, st: State, projects: seq<string>, stuck: set<string>) {
    var written, kept := ReadBack(SortStrings(projects)), ReadBack(WillStay(root, mirror, st, projects, stuck));
    !Distinct(written) || !Distinct(kept) || exists p :: p in written && p in kept
  }

  /** The list holds no path twice after a run exactly when, before it, what would be read back
      of the projects' paths is distinct, and distinct from what would be read back of the
      obsolete paths that have a worktree or a git directory that resists removal. */
  lemma DistinctExactly(root: string, mirror: bool, st: State, projects: seq<string>, stuck: set<string>)
    requires IsRoot(root) && OutsideRepo(Obsolete(st.Listed(), projects))
    ensures Distinct(Update(root, mirror, st, projects, stuck, false).Listed())
       <==> !Clashes(root, mirror, st, projects, stuck)
  {
    hide ReadBack, SortStrings, Update, State.Listed, ExamineAll, OutsideRepo, Obsolete, Staying;
    UpdateListed(root, mirror, st, projects, stuck);
    RemainsExactly(root, mirror, stuck, st.disk, Obsolete(st.Listed(), projects));
    var written, kept := ReadBack(SortStrings(projects)), ReadBack(WillStay(root, mirror, st, projects, stuck));
    DistinctHalves(written, kept);
  }

  lemma DistinctHalves(a: seq<string>, b: seq<string>)
    ensures Distinct(a + b) <==> Distinct(a) && Distinct(b) && !exists p :: p in a && p in b
  {
    var c := a + b;
    if Distinct(c) {
      forall i, j | 0 <= i < j < |a| ensures a[i] != a[j] { assert c[i] == a[i] && c[j] == a[j]; }
      forall i, j | 0 <= i < j < |b| ensures b[i] != b[j] { assert c[|a| + i] == b[i] && c[|a| + j] == b[j]; }
      forall i, j | 0 <= i < |a| && 0 <= j < |b| ensures a[i] != b[j] { assert c[i] == a[i] && c[|a| + j] == b[j]; }
    }
    if Distinct(a) && Distinct(b) && !exists p :: p in a && p in b {
      forall i, j | 0 <= i < j < |c| ensures c[i] != c[j] {
        assert c[i] == if i < |a| then a[i] else b[i - |a|];
        assert c[j] == if j < |a| then a[j] else b[j - |a|];
        assert i < |a| <= j ==> a[i] in a && b[j - |a|] in b;
      }
    }
  }

  /** Between two runs anything may happen to the disk. */
  datatype Event = Meanwhile(disk: set<string>) | Sync(projects: seq<string>, stuck: set<string>, saveFails: bool)

  function After(root: string, mirror: bool, st: State, e: Event): State {
    match e
    case Meanwhile(disk) => st.(disk := disk)
    case Sync(projects, stuck, saveFails) => Update(root, mirror, st, projects, stuck, saveFails)
  }

  function History(root: string, mirror: bool, st: State, events: seq<Event>): State
    decreases events
  {
    if events == [] then st else History(root, mirror, After(root, mirror, st, events[0]), events[1..])
  }

  lemma SameList(st: State, disk: set<string>)
    ensures st.(disk := disk).Listed() == st.Listed()
  {
  }

  /** No path is listed twice, after any event of the history. */
  ghost predicate AlwaysDistinct(root: string, mirror: bool, st: State, events: seq<Event>)
    decreases events
  {
    && Distinct(st.Listed())
    && (events != [] ==> AlwaysDistinct(root, mirror, After(root, mirror, st, events[0]), events[1..]))
  }

  /** Whenever a run is about to save its list, there is no clash. */
  ghost predicate NeverClashes(root: string, mirror: bool, st: State, events: seq<Event>)
    decreases events
  {
    events != [] ==>
      && (events[0].Sync? && !events[0].saveFails ==> !Clashes(root, mirror, st, events[0].projects, events[0].stuck))
      && NeverClashes(root, mirror, After(root, mirror, st, events[0]), events[1..])
  }

  /** Whenever a run starts, no path that has become obsolete lies in `.repo`. */
  ghost predicate StaysOutside(root: string, mirror: bool, st: State, events: seq<Event>)
    decreases events
  {
    events != [] ==>
      && (events[0].Sync? ==> OutsideRepo(Obsolete(st.Listed(), events[0].projects)))
      && StaysOutside(root, mirror, After(root, mirror, st, events[0]), events[1..])
  }

  /** Over any history, `project.list` never holds a path twice exactly when no run starts in a
      state in which its projects clash with each other or with what will stay. */
  lemma {:induction false} ListStaysDistinct(root: string, mirror: bool, st: State, events: seq<Event>)
    requires IsRoot(root) && Distinct(st.Listed()) && StaysOutside(root, mirror, st, events)
    ensures AlwaysDistinct(root, mirror, st, events) <==> NeverClashes(root, mirror, st, events)
    decreases events
  {
    hide Clashes, State.Listed, Distinct, IsRoot, Obsolete, OutsideRepo;
    if events != [] {
      var e := events[0];
      var next := After(root, mirror, st, e);
      if e.Sync? && !e.saveFails {
        hide Update;
        DistinctExactly(root, mirror, st, e.projects, e.stuck);
      } else {
        assert next.Listed() == st.Listed() by { SameList(st, next.disk); }
      }
      if Distinct(next.Listed()) { ListStaysDistinct(root, mirror, next, events[1..]); }
    }
  }

  /** Two clean, distinct paths inside the root that are listed as one path, twice. */
  lemma BlankDoubles(root: string, mirror: bool, disk: set<string>)
    ensures Inside(" a") && Inside("a")
    ensures Update(root, mirror, State(disk, None), [" a", "a"], {}, false).Listed() == ["a", "a"]
  {
    InsideWord(" a");
    InsideWord("a");
    hide ReadOne, Inside, SortStrings, Update;
    BlankLine();
    BlankFirst();
    var projects := [" a", "a"];
    assert Remains(root, mirror, State(disk, None), projects, {}) == [] by { NothingObsolete(projects); }
    UpdateListed(root, mirror, State(disk, None), projects, {});
    assert projects[1..] == ["a"] && ["a"][1..] == [];
  }

  lemma NothingObsolete(projects: seq<string>)
    ensures Obsolete([], projects) == []
  {
  }

  lemma BlankFirst()
    ensures SortStrings([" a", "a"]) == [" a", "a"]
  {
    assert [" a", "a"][1..] == ["a"] && ["a"][1..] == [];
    assert SortStrings(["a"]) == Insert("a", []) == ["a"];
    assert !Less("a", " a");
  }

  lemma BlankLine()
    ensures ReadOne(" a") == ["a"] && ReadOne("a") == ["a"]
  {
    ReadableBack("a");
    SplitWhole(" a", '\n');
    assert " a"[1..] == "a";
    assert TrimLeft(" a") == TrimLeft("a") == "a" && TrimRight("a") == "a";
    assert [" a"][1..] == [];
  }

  lemma InsideWord(p: string)
    requires p != "" && p[0] != '.' && '/' !in p
    ensures Inside(p)
  {
    SplitWhole(p, '/');
    assert Push(false, [], p) == [p];
    assert [p][1..] == [];
    assert Reduce(false, [], [p]) == Reduce(false, [p], []) == [p];
    JoinSingle(p);
  }

  /** Paths that `project.list` can hold: clean, distinct, one to a line. */
  ghost predicate Listable(paths: seq<string>) {
    Distinct(paths) && forall p | p in paths :: Clean(p) == p && Trimmed(p) && '\n' !in p
  }

  /** Such paths never clash, as long as only such paths are listed. */
  lemma ListableNeverClashes(root: string, mirror: bool, st: State, projects: seq<string>, stuck: set<string>)
    requires IsRoot(root) && Listable(projects) && Listable(st.Listed())
    ensures OutsideRepo(Obsolete(st.Listed(), projects)) ==> !Clashes(root, mirror, st, projects, stuck)
    ensures Listable(Update(root, mirror, st, projects, stuck, false).Listed())
    ensures Update(root, mirror, st, projects, stuck, false).Listed()
         == SortStrings(projects) + Remains(root, mirror, st, projects, stuck)
  {
    hide Clean, Trimmed, IsRoot, ExamineAll, Obsolete, SortStrings, Inside, Update, State.Listed, Clashes, ReadBack,
      OutsideRepo;
    var listed, obsolete := st.Listed(), Obsolete(st.Listed(), projects);
    var sorted, remains := SortStrings(projects), Remains(root, mirror, st, projects, stuck);
    ObsoleteIsDifference(listed, projects);
    MembersOfMultiset(sorted, projects);
    forall q | q in obsolete ensures q in listed {
      assert q in multiset(obsolete) && q in multiset(listed);
    }
    RemainsOnly(root, mirror, stuck, st.disk, obsolete);
    var all := sorted + remains;
    forall q | q in all ensures (q in projects || q in listed) && Readable(q) {
      if q in remains { assert q in multiset(remains) && q in multiset(obsolete) && q in obsolete; }
      assert Clean(q) == q;
      CleanIsReduced(q);
    }
    forall x ensures multiset(all)[x] <= 1 {
      DistinctCount(projects, x);
      DistinctCount(listed, x);
      assert multiset(all)[x] == multiset(projects)[x] + multiset(remains)[x];
      assert multiset(remains)[x] <= multiset(obsolete)[x];
    }
    CountDistinct(all);
    UpdateListed(root, mirror, st, projects, stuck);
    assert forall q | q in sorted :: q in all;
    assert forall q | q in remains :: q in all;
    ReadBackSame(sorted);
    ReadBackSame(remains);
    if OutsideRepo(obsolete) { DistinctExactly(root, mirror, st, projects, stuck); }
  }

  /** Over any history in which every run is given such paths, and which starts with such a
      list, the list never holds a path twice: what is obsolete, what resists and what happens
      to the disk in between does not matter. */
  lemma {:induction false} ListableHistory(root: string, mirror: bool, st: State, events: seq<Event>)
    requires IsRoot(root) && Listable(st.Listed())
    requires forall e | e in events && e.Sync? :: Listable(e.projects)
    ensures AlwaysDistinct(root, mirror, st, events) && Listable(History(root, mirror, st, events).Listed())
    decreases events
  {
    hide State.Listed, IsRoot, Clashes, Clean, Trimmed;
    if events != [] {
      var e := events[0];
      var next := After(root, mirror, st, e);
      assert e in events && forall x | x in events[1..] :: x in events;
      if e.Sync? && !e.saveFails {
        hide Update;
        ListableNeverClashes(root, mirror, st, e.projects, e.stuck);
      } else {
        assert next.Listed() == st.Listed() by { SameList(st, next.disk); }
      }
      ListableHistory(root, mirror, next, events[1..]);
    }
  }

  /** A listed path stays listed through a run that leaves its worktree in place. */
  lemma UpdateKeepsPath(root: string, mirror: bool, st: State, projects: seq<string>, stuck: set<string>,
                        saveFails: bool, p: string)
    requires IsRoot(root) && p in st.Listed() && Inside(p)
    requires WorkDir(root, p) in Update(root, mirror, st, projects, stuck, saveFails).disk
    ensures p in Update(root, mirror, st, projects, stuck, saveFails).Listed()
  {
    hide IsRoot, ExamineAll, Obsolete, SortStrings, ReadPaths, WritePaths, Inside, WorkDir, ReadBack, Readable;
    if !saveFails {
      var listed, obsolete := st.Listed(), Obsolete(st.Listed(), projects);
      UpdateListed(root, mirror, st, projects, stuck);
      ListedReadable(st);
      ObsoleteIsDifference(listed, projects);
      MembersOfMultiset(SortStrings(projects), projects);
      if p in projects {
        ReadBackHas(SortStrings(projects), p);
      } else {
        assert p in multiset(listed) && p !in multiset(projects);
        assert p in multiset(obsolete) && p in obsolete;
        RemainsMeans(root, mirror, stuck, st.disk, obsolete, p);
        ReadBackHas(Remains(root, mirror, st, projects, stuck), p);
      }
    }
  }

  /** The worktree of `p` exists after every run. */
  ghost predicate WorktreeKept(root: string, mirror: bool, st: State, events: seq<Event>, p: string)
    decreases events
  {
    if events == [] then true
    else
      var next := After(root, mirror, st, events[0]);
      (events[0].Sync? ==> WorkDir(root, p) in next.disk) && WorktreeKept(root, mirror, next, events[1..], p)
  }

  /** Over any history, a listed path inside the root stays listed while its worktree exists. */
  lemma {:induction false} ListedWhileThere(root: string, mirror: bool, st: State, events: seq<Event>, p: string)
    requires IsRoot(root) && p in st.Listed() && Inside(p) && WorktreeKept(root, mirror, st, events, p)
    ensures p in History(root, mirror, st, events).Listed()
    decreases events
  {
    hide IsRoot, Update, State.Listed, Inside, WorkDir;
    if events != [] {
      var e := events[0];
      if e.Sync? {
        UpdateKeepsPath(root, mirror, st, e.projects, e.stuck, e.saveFails, p);
      } else {
        SameList(st, e.disk);
      }
      ListedWhileThere(root, mirror, After(root, mirror, st, e), events[1..], p);
    }
  }
}
