/** project/local-half.go: what one project's sync does to its repository.  Git commands
    are abstract state changes; whether each succeeds is decided outside. */
module ProjectSync {
  import opened Text

  type Commit = string

  // ------------------------------------------------------------- references

  const REFS := "refs/"
  const REFS_HEADS := "refs/heads/"
  const REFS_TAGS := "refs/tags/"
  const REFS_PUB := "refs/published/"
  const REFS_REMOTES := "refs/remotes/"

  predicate IsHex(c: char): (hex: bool)
    ensures hex <==> c in "0123456789abcdef"
  {
    '0' <= c <= '9' || 'a' <= c <= 'f'
  }

  predicate IsSha(rev: string) {
    (|rev| == 40 || |rev| == 64) && forall i | 0 <= i < |rev| :: IsHex(rev[i])
  }

  predicate IsHead(rev: string) {
    REFS_HEADS <= rev
  }

  predicate IsImmutable(rev: string) {
    IsSha(rev) || REFS_TAGS <= rev || (!IsHead(rev) && REFS <= rev)
  }

  /** A branch name without the prefix "refs/heads/". */
  function ShortName(rev: string): string {
    if IsHead(rev) then rev[|REFS_HEADS|..] else rev
  }

  // ------------------------------------------------------------------ state

  datatype Head = Symbolic(ref: string) | Detached(commit: Commit) | Unreadable

  /** `history` maps each commit to its ancestors, itself included; `merge` and `remote`
      are the configuration values `branch.<name>.merge` and `branch.<name>.remote`. */
  datatype Repo = Repo(
    head: Head,
    refs: map<string, Commit>,
    merge: map<string, string>,
    remote: map<string, string>,
    history: map<Commit, set<Commit>>,
    clean: bool,
    rebasing: bool)

  ghost predicate SoundHistory(history: map<Commit, set<Commit>>) {
    && "" !in history
    && (forall c | c in history :: c in history[c])
    && (forall c, a | c in history && a in history[c] :: a in history && history[a] <= history[c])
  }

  ghost predicate Sound(r: Repo) {
    && SoundHistory(r.history)
    && (forall ref | ref in r.refs :: r.refs[ref] in r.history)
    && (r.head.Detached? ==> r.head.commit in r.history)
  }

  datatype Settings = Settings(
    revision: string, destBranch: string, upstream: string, manifestDefaultRevision: string,
    remoteName: string, rebase: bool)

  datatype Options = Options(detachHead: bool, isManifest: bool, checkPublished: bool, submodules: bool)

  datatype Error =
    | WorkdirFailed | InvalidTracking | RebaseInProgress | PublishedUnknown | NotMerged
    | Dirty | LocalChanges | CommandFailed | SubmodulesFailed | CopiesFailed

  datatype Result = Ok | Err(error: Error)

  /** How a git command ends: with a new tip and the history that has it, or failing and
      leaving any state behind. */
  datatype Ending = Succeeds(tip: Commit, history: map<Commit, set<Commit>>) | Fails(left: Repo)

  /** What the world decides during one sync. */
  datatype Effects = Effects(
    workdirOk: bool, unremovable: set<string>,
    remoteListOk: bool, publishedListOk: bool, trackListOk: bool,
    checkout: Ending, merge: Ending, rebase: Ending, reset: Ending,
    submodulesOk: bool, copiesOk: bool)

  /** A successful rebase or merge adds commits and puts the target below the new tip. */
  ghost predicate Reaches(e: Ending, r: Repo, target: Commit) {
    e.Succeeds? ==>
      && (forall c | c in r.history :: c in e.history && e.history[c] == r.history[c])
      && SoundHistory(e.history) && e.tip in e.history && target in e.history[e.tip]
  }

  // ---------------------------------------------------------------- lookups

  function Get(m: map<string, string>, key: string): string {
    if key in m then m[key] else ""
  }

  function DefaultTrackingBranch(st: Settings): (track: string)
    ensures !IsImmutable(track)
  {
    if st.revision != "" && !IsImmutable(st.revision) then st.revision
    else if st.destBranch != "" && !IsImmutable(st.destBranch) then st.destBranch
    else if st.upstream != "" && !IsImmutable(st.upstream) then st.upstream
    else if st.manifestDefaultRevision != "" && !IsImmutable(st.manifestDefaultRevision) then st.manifestDefaultRevision
    else ""
  }

  /** The ref `HEAD` names; "" when detached or unreadable. */
  function GetHead(r: Repo): string {
    if r.head.Symbolic? then r.head.ref else ""
  }

  /** go-git's resolution of a full ref name or a commit id; "" when it fails. */
  function Resolve(r: Repo, rev: string): Commit {
    if rev in r.refs then r.refs[rev] else if IsSha(rev) && rev in r.history then rev else ""
  }

  function RemoteTrackingRef(st: Settings, rev: string): string {
    if IsSha(rev) then rev
    else
      var short := ShortName(rev);
      if REFS <= short then short else REFS_REMOTES + st.remoteName + "/" + short
  }

  function ResolveRemoteTracking(st: Settings, r: Repo, rev: string): Commit {
    Resolve(r, RemoteTrackingRef(st, rev))
  }

  function HeadId(r: Repo): Commit {
    if GetHead(r) == "" then "" else Resolve(r, GetHead(r))
  }

  /** The current branch; "" when detached, or when `HEAD` names no existing branch. */
  function CurrentBranch(r: Repo): string {
    if HeadId(r) != "" && IsHead(GetHead(r)) then ShortName(GetHead(r)) else ""
  }

  function TrackBranch(r: Repo, branch: string): string {
    ShortName(Get(r.merge, branch))
  }

  /** `git rev-list a --not b`; a failing command lists nothing. */
  function Revlist(r: Repo, a: Commit, b: Commit, ok: bool): set<Commit> {
    if ok && a in r.history && b in r.history then r.history[a] - r.history[b] else {}
  }

  // ------------------------------------------------------------ state changes

  /** `CleanPublishedCache`: drops the published ref of every branch that is gone. */
  function CleanPublished(r: Repo, unremovable: set<string>): Repo {
    r.(refs := map ref | ref in r.refs &&
      (REFS_PUB <= ref && REFS_HEADS + ref[|REFS_PUB|..] !in r.refs ==> ref in unremovable) :: r.refs[ref])
  }

  function UpdateBranchTracking(r: Repo, branch: string, remote: string, track: string): Repo {
    if track == "" || IsSha(track) || (REFS <= track && !IsHead(track)) then
      r.(merge := r.merge - {branch}, remote := r.remote - {branch})
    else
      r.(merge := r.merge[branch := if IsHead(track) then track else REFS_HEADS + track],
         remote := if remote != "" then r.remote[branch := remote] else r.remote)
  }

  /** Moves the branch `HEAD` is on. */
  function MoveTip(r: Repo, tip: Commit): Repo {
    if r.head.Symbolic? then r.(refs := r.refs[r.head.ref := tip]) else r.(head := Detached(tip))
  }

  datatype Command = Checkout | FastForward | Rebase | HardReset

  /** A git command, with the state it was started in. */
  datatype Call = Call(command: Command, before: Repo)

  function Run(command: Command, r: Repo, target: Commit, eff: Effects): (Result, Repo) {
    match command
    case Checkout =>
      if eff.checkout.Fails? then (Err(CommandFailed), eff.checkout.left) else (Ok, r.(head := Detached(target)))
    case HardReset =>
      if eff.reset.Fails? then (Err(CommandFailed), eff.reset.left) else (Ok, MoveTip(r, target).(clean := true))
    case FastForward =>
      if eff.merge.Fails? then (Err(CommandFailed), eff.merge.left)
      else (Ok, MoveTip(r, eff.merge.tip).(history := eff.merge.history))
    case Rebase =>
      if eff.rebase.Fails? then (Err(CommandFailed), eff.rebase.left)
      else (Ok, MoveTip(r, eff.rebase.tip).(history := eff.rebase.history))
  }

  /** The `PostUpdate` closure over `branch` and `track`. */
  function PostUpdate(st: Settings, o: Options, r: Repo, branch: string, track: string, update: bool, eff: Effects)
    : (Result, Repo)
  {
    var default := DefaultTrackingBranch(st);
    var r' := if branch != "" && track != default then UpdateBranchTracking(r, branch, st.remoteName, default) else r;
    if update && o.submodules && !eff.submodulesOk then (Err(SubmodulesFailed), r')
    else if !eff.copiesOk then (Err(CopiesFailed), r')
    else (Ok, r')
  }

  // --------------------------------------------------------- the procedure

  datatype Decision = Refuse(error: Error) | Keep | Do(command: Command)

  /** The decision procedure, as a table over the state. */
  function Decide(st: Settings, o: Options, r: Repo, revid: Commit, eff: Effects): Decision {
    var headid, branch := HeadId(r), CurrentBranch(r);
    var track := TrackBranch(r, branch);
    if branch == "" || o.detachHead then
      if r.rebasing then Refuse(RebaseInProgress)
      else if headid == revid && !o.detachHead then Keep
      else Do(Checkout)
    else if headid == revid then Keep
    else if track == "" then Do(Checkout)
    else if (!o.isManifest || DefaultTrackingBranch(st) == track)
            && Revlist(r, revid, headid, eff.remoteListOk) == {} then Keep
    else
      var pubid := if !o.isManifest && o.checkPublished then Resolve(r, REFS_PUB + ShortName(branch)) else "";
      if pubid != "" && !eff.publishedListOk then Refuse(PublishedUnknown)
      else if pubid != "" && Revlist(r, pubid, revid, true) != {} then Refuse(NotMerged)
      else if pubid != "" && pubid == headid then Do(FastForward)
      else if !r.clean then Refuse(Dirty)
      else if o.isManifest && st.revision != track then
        if Revlist(r, headid, ResolveRemoteTracking(st, r, track), eff.trackListOk) != {} then Refuse(LocalChanges)
        else Do(HardReset)
      else Do(if st.rebase then Rebase else FastForward)
  }

  datatype Sync = Sync(result: Result, repo: Repo, calls: seq<Call>)

  function SyncLocalHalf(st: Settings, o: Options, r: Repo, eff: Effects): Sync {
    if !eff.workdirOk then Sync(Err(WorkdirFailed), r, [])
    else if st.revision == "" then Sync(Ok, r, [])
    else
      var r1 := CleanPublished(r, eff.unremovable);
      var revid := ResolveRemoteTracking(st, r1, st.revision);
      if revid == "" then Sync(Err(InvalidTracking), r1, [])
      else
        Perform(st, o, r1, revid, Decide(st, o, r1, revid, eff), eff)
  }

  /** Carries a decision out. */
  function Perform(st: Settings, o: Options, r: Repo, revid: Commit, decision: Decision, eff: Effects): Sync {
    var branch := CurrentBranch(r);
    var track := if branch == "" then "" else TrackBranch(r, branch);
    match decision
    case Refuse(error) => Sync(Err(error), r, [])
    case Keep =>
      var (result, r') := PostUpdate(st, o, r, branch, track, false, eff);
      Sync(result, r', [])
    case Do(command) =>
      var (ending, r') := Run(command, r, revid, eff);
      if ending.Err? then Sync(ending, r', [Call(command, r)])
      else
        var (result, r'') := PostUpdate(st, o, r', branch, track, command != HardReset, eff);
        Sync(result, r'', [Call(command, r)])
  }

  /** A checked-out project.  Its methods follow the source statement by statement. */
  class Project {
    const settings: Settings
    var repo: Repo
    var calls: seq<Call>

    constructor (settings: Settings, repo: Repo)
      ensures this.settings == settings && this.repo == repo && calls == []
    {
      this.settings, this.repo, this.calls := settings, repo, [];
    }

    method Git(command: Command, target: Commit, eff: Effects) returns (result: Result)
      modifies this
      ensures (result, repo) == Run(command, old(repo), target, eff)
      ensures calls == old(calls) + [Call(command, old(repo))]
    {
      calls := calls + [Call(command, repo)];
      var (ending, after) := Run(command, repo, target, eff);
      result, repo := ending, after;
    }

    method Post(o: Options, branch: string, track: string, update: bool, eff: Effects) returns (result: Result)
      modifies this`repo
      ensures (result, repo) == PostUpdate(settings, o, old(repo), branch, track, update, eff)
    {
      var default := DefaultTrackingBranch(settings);
      if branch != "" && track != default {
        repo := UpdateBranchTracking(repo, branch, settings.remoteName, default);
      }
      if update && o.submodules {
        if !eff.submodulesOk { return Err(SubmodulesFailed); }
      }
      return if eff.copiesOk then Ok else Err(CopiesFailed);
    }

    method SyncLocal(o: Options, eff: Effects) returns (result: Result)
      modifies this
      ensures var sync := SyncLocalHalf(settings, o, old(repo), eff);
              result == sync.result && repo == sync.repo && calls == old(calls) + sync.calls
    {
      hide Run, PostUpdate, CleanPublished, Resolve, ResolveRemoteTracking, Revlist, DefaultTrackingBranch, IsHead,
        ShortName, TrackBranch;
      if !eff.workdirOk { return Err(WorkdirFailed); }
      if settings.revision == "" { return Ok; }
      repo := CleanPublished(repo, eff.unremovable);
      var revid := ResolveRemoteTracking(settings, repo, settings.revision);
      if revid == "" { return Err(InvalidTracking); }

      var branch, track := "", "";
      var head := GetHead(repo);
      var headid := if head == "" then "" else Resolve(repo, head);
      if headid != "" {
        if IsHead(head) { branch := ShortName(head); }
      }
      if branch != "" { track := TrackBranch(repo, branch); }

      if branch == "" || o.detachHead {
        if repo.rebasing { return Err(RebaseInProgress); }
        if headid == revid {
          if !o.detachHead {
            result := Post(o, branch, track, false, eff);
            return;
          }
        }
        result := Git(Checkout, revid, eff);
        if result.Err? { return; }
        result := Post(o, branch, track, true, eff);
        return;
      }

      result := SyncBranch(o, branch, track, headid, revid, eff);
    }

    /** The part of `SyncLocalHalf` that leaves the project on its branch if it can. */
    method SyncBranch(o: Options, branch: string, track: string, headid: Commit, revid: Commit, eff: Effects)
      returns (result: Result)
      requires branch == CurrentBranch(repo) != "" && track == TrackBranch(repo, branch) && headid == HeadId(repo)
      requires !o.detachHead
      modifies this
      ensures var r := old(repo);
              var sync := Perform(settings, o, r, revid, Decide(settings, o, r, revid, eff), eff);
              result == sync.result && repo == sync.repo && calls == old(calls) + sync.calls
    {
      hide Run, PostUpdate, Resolve, ResolveRemoteTracking, Revlist, DefaultTrackingBranch, IsHead, ShortName,
        TrackBranch,
        CurrentBranch, HeadId, CleanPublished;
      if headid == revid {
        result := Post(o, branch, track, false, eff);
        return;
      }

      if track == "" {
        result := Git(Checkout, revid, eff);
        if result.Err? { return; }
        result := Post(o, branch, track, true, eff);
        return;
      }

      var remoteChanges := Revlist(repo, revid, headid, eff.remoteListOk);
      if !o.isManifest || DefaultTrackingBranch(settings) == track {
        if remoteChanges == {} {
          result := Post(o, branch, track, false, eff);
          return;
        }
      }

      if !o.isManifest && o.checkPublished {
        var pubid := Resolve(repo, REFS_PUB + ShortName(branch));
        if pubid != "" {
          if !eff.publishedListOk { return Err(PublishedUnknown); }
          var notMerged := Revlist(repo, pubid, revid, true);
          if notMerged != {} { return Err(NotMerged); }
          if pubid == headid {
            result := Git(FastForward, revid, eff);
            if result.Err? { return; }
            result := Post(o, branch, track, true, eff);
            return;
          }
        }
      }

      if !repo.clean { return Err(Dirty); }

      if o.isManifest && settings.revision != track {
        var trackid := ResolveRemoteTracking(settings, repo, track);
        var localChanges := Revlist(repo, headid, trackid, eff.trackListOk);
        if localChanges != {} { return Err(LocalChanges); }
        result := Git(HardReset, revid, eff);
        if result.Err? { return; }
        result := Post(o, branch, track, false, eff);
        return;
      }

      if settings.rebase {
        result := Git(Rebase, revid, eff);
        if result.Err? { return; }
      } else {
        result := Git(FastForward, revid, eff);
        if result.Err? { return; }
      }
      result := Post(o, branch, track, true, eff);
    }
  }

  // -------------------------------------------------------------- properties

  function HeadCommit(r: Repo): Commit {
    if r.head.Detached? then r.head.commit else HeadId(r)
  }

  /** The revision the sync brings the project to. */
  function Target(st: Settings, r: Repo, eff: Effects): Commit {
    ResolveRemoteTracking(st, CleanPublished(r, eff.unremovable), st.revision)
  }

  /** Successful rebases and merges do what git promises. */
  ghost predicate Promised(st: Settings, r: Repo, eff: Effects) {
    var r1 := CleanPublished(r, eff.unremovable);
    Reaches(eff.merge, r1, Target(st, r, eff)) && Reaches(eff.rebase, r1, Target(st, r, eff))
  }

  /** They do, and no rev-list command fails. */
  ghost predicate Faithful(st: Settings, r: Repo, eff: Effects) {
    Promised(st, r, eff) && eff.remoteListOk && eff.publishedListOk && eff.trackListOk
  }

  /** Deleting stale published refs leaves every branch, and the rest of the state, alone. */
  lemma CleanKeeps(r: Repo, unremovable: set<string>)
    ensures var r1 := CleanPublished(r, unremovable);
            && r1 == r.(refs := r1.refs)
            && (forall ref :: ref in r1.refs ==> ref in r.refs && r1.refs[ref] == r.refs[ref])
            && (forall ref :: ref in r.refs && !(REFS_PUB <= ref) ==> ref in r1.refs)
    ensures forall name: string | "refs/published/" + name in r.refs ::
              "refs/published/" + name in CleanPublished(r, unremovable).refs
              <==> "refs/heads/" + name in r.refs || "refs/published/" + name in unremovable
    ensures Sound(r) ==> Sound(CleanPublished(r, unremovable))
    ensures CurrentBranch(CleanPublished(r, unremovable)) == CurrentBranch(r)
    ensures CurrentBranch(r) != "" ==> HeadId(CleanPublished(r, unremovable)) == HeadId(r)
  {
    if IsHead(GetHead(r)) {
      assert GetHead(r)[5] == 'h';
    }
  }

  lemma ResolvedIsCommit(r: Repo, rev: string)
    requires Sound(r)
    ensures Resolve(r, rev) == "" || Resolve(r, rev) in r.history
  {
  }

  /** Tracking configuration is all that `PostUpdate` changes. */
  lemma PostKeeps(st: Settings, o: Options, r: Repo, branch: string, track: string, update: bool, eff: Effects)
    ensures var r' := PostUpdate(st, o, r, branch, track, update, eff).1;
            r' == r.(merge := r'.merge, remote := r'.remote)
  {
  }

  /** The commit is reachable from `HEAD`. */
  ghost predicate Reached(r: Repo, c: Commit) {
    HeadCommit(r) in r.history && c in r.history[HeadCommit(r)]
  }

  /** The sync stays on a branch that tracks something, and decides by the list of remote
      changes whether anything is to be done. */
  predicate ListsFirst(st: Settings, o: Options, r: Repo) {
    var track := TrackBranch(r, CurrentBranch(r));
    CurrentBranch(r) != "" && !o.detachHead && track != "" && (!o.isManifest || DefaultTrackingBranch(st) == track)
  }

  /** A successful sync ends with the target reachable from HEAD, with one exception: when the
      `rev-list` that looks for remote changes is to decide and fails, their absence is taken for
      granted, and a project that did not have the target still does not.  A sync that does not
      detach and starts on a tracked branch stays on that branch. */
  lemma SyncReachesTarget(st: Settings, o: Options, r: Repo, eff: Effects)
    requires Sound(r) && Promised(st, r, eff) && st.revision != ""
    requires SyncLocalHalf(st, o, r, eff).result.Ok?
    ensures var r', revid := SyncLocalHalf(st, o, r, eff).repo, Target(st, r, eff);
            var r1 := CleanPublished(r, eff.unremovable);
            && (Reached(r', revid) <==> eff.remoteListOk || !ListsFirst(st, o, r1) || Reached(r1, revid))
            && (CurrentBranch(r) != "" && TrackBranch(r, CurrentBranch(r)) != "" && !o.detachHead ==>
                  CurrentBranch(r') == CurrentBranch(r) && r'.head == r.head)
  {
    hide DefaultTrackingBranch, IsSha, ResolveRemoteTracking, UpdateBranchTracking, Decide, Run, Revlist, PostUpdate,
      ShortName, RemoteTrackingRef, ListsFirst;
    var r1, revid := CleanPublished(r, eff.unremovable), Target(st, r, eff);
    CleanKeeps(r, eff.unremovable);
    TargetIsCommit(st, r, eff);
    if eff.remoteListOk || Decide(st, o, r1, revid, eff) != Keep {
      PerformReachesTarget(st, o, r1, revid, eff);
    } else {
      var branch := CurrentBranch(r1);
      PostKeeps(st, o, r1, branch, if branch == "" then "" else TrackBranch(r1, branch), false, eff);
    }
    if !eff.remoteListOk { FailedListKeeps(st, o, r1, revid, eff); }
  }

  /** When that list fails, nothing is done where it is to decide; elsewhere nothing is done
      only if the target is there already. */
  lemma FailedListKeeps(st: Settings, o: Options, r: Repo, revid: Commit, eff: Effects)
    requires Sound(r) && revid in r.history && revid != "" && !eff.remoteListOk
    ensures ListsFirst(st, o, r) ==> Decide(st, o, r, revid, eff) == Keep
    ensures Decide(st, o, r, revid, eff) == Keep ==> ListsFirst(st, o, r) || Reached(r, revid)
  {
    hide DefaultTrackingBranch, IsSha, UpdateBranchTracking, ShortName, Resolve;
  }

  lemma TargetIsCommit(st: Settings, r: Repo, eff: Effects)
    requires Sound(r) && Target(st, r, eff) != ""
    ensures Target(st, r, eff) in CleanPublished(r, eff.unremovable).history
  {
    hide RemoteTrackingRef, IsSha;
    CleanKeeps(r, eff.unremovable);
    ResolvedIsCommit(CleanPublished(r, eff.unremovable), RemoteTrackingRef(st, st.revision));
  }

  /** Where the target is looked up: a commit id stands for itself, a full ref that is not a
      branch's too, and a branch for the remote's branch of that name. */
  lemma TargetMeans(st: Settings, r: Repo, eff: Effects, name: string)
    ensures var refs, target := CleanPublished(r, eff.unremovable).refs, Target(st, r, eff);
            && (IsSha(st.revision) && st.revision !in refs ==>
                  target == if st.revision in r.history then st.revision else "")
            && ("refs/" <= st.revision && !("refs/heads/" <= st.revision) ==> target == Get(refs, st.revision))
            && (st.revision in {name, "refs/heads/" + name} && !IsSha(name) && !("refs/" <= name) ==>
                  target == Get(refs, "refs/remotes/" + st.remoteName + "/" + name))
  {
    var head := "refs/heads/" + name;
    if REFS <= st.revision { SlashIsNoSha(st.revision); }
    SlashIsNoSha(head);
    SlashIsNoSha("refs/remotes/" + st.remoteName + "/" + name);
    HeadName(head);
    assert head[|REFS_HEADS|..] == name;
    assert "refs/heads/" <= name ==> "refs/" <= name by { if "refs/heads/" <= name { assert name[..5] == "refs/"; } }
    hide IsSha, CleanPublished;
  }

  /** An empty list means that every commit of `a` is reachable from `b`. */
  lemma NothingListed(r: Repo, a: Commit, b: Commit)
    requires Sound(r)
    ensures a in r.history && b in r.history && Revlist(r, a, b, true) == {} ==>
              a in r.history[b] && r.history[a] <= r.history[b]
  {
    if a in r.history && b in r.history {
      forall c | c in r.history[a] && c !in r.history[b] ensures c in Revlist(r, a, b, true) {}
    }
  }

  lemma PerformReachesTarget(st: Settings, o: Options, r: Repo, revid: Commit, eff: Effects)
    requires Sound(r) && revid in r.history
    requires Reaches(eff.merge, r, revid) && Reaches(eff.rebase, r, revid)
    requires eff.remoteListOk || Decide(st, o, r, revid, eff) != Keep
    requires Perform(st, o, r, revid, Decide(st, o, r, revid, eff), eff).result.Ok?
    ensures var r' := Perform(st, o, r, revid, Decide(st, o, r, revid, eff), eff).repo;
            && HeadCommit(r') in r'.history && revid in r'.history[HeadCommit(r')]
            && (CurrentBranch(r) != "" && TrackBranch(r, CurrentBranch(r)) != "" && !o.detachHead ==>
                  CurrentBranch(r') == CurrentBranch(r) && r'.head == r.head)
  {
    hide DefaultTrackingBranch, IsSha, ResolveRemoteTracking, UpdateBranchTracking, Decide, Run, Revlist, PostUpdate,
      ShortName, TrackBranch;
    var d := Decide(st, o, r, revid, eff);
    var branch := CurrentBranch(r);
    var track := if branch == "" then "" else TrackBranch(r, branch);
    if d.Keep? {
      KeepIsReached(st, o, r, revid, eff);
      PostKeeps(st, o, r, branch, track, false, eff);
    } else {
      var r' := Run(d.command, r, revid, eff).1;
      DetachesWhen(st, o, r, revid, eff);
      RunReaches(d.command, r, revid, eff);
      PostKeeps(st, o, r', branch, track, d.command != HardReset, eff);
    }
  }

  lemma KeepIsReached(st: Settings, o: Options, r: Repo, revid: Commit, eff: Effects)
    requires Sound(r) && revid in r.history && eff.remoteListOk
    requires Decide(st, o, r, revid, eff) == Keep
    ensures HeadCommit(r) in r.history && revid in r.history[HeadCommit(r)]
  {
    hide DefaultTrackingBranch, IsSha, UpdateBranchTracking;
    ResolvedIsCommit(r, GetHead(r));
    NothingListed(r, revid, HeadId(r));
  }

  /** On a branch that tracks something, only `--detach` checks out; all other commands run on a branch. */
  lemma DetachesWhen(st: Settings, o: Options, r: Repo, revid: Commit, eff: Effects)
    ensures var d := Decide(st, o, r, revid, eff);
            && (d.Do? && d.command != Checkout ==> CurrentBranch(r) != "")
            && (d == Do(Checkout) ==> o.detachHead || CurrentBranch(r) == "" || TrackBranch(r, CurrentBranch(r)) == "")
  {
    hide DefaultTrackingBranch, IsSha, UpdateBranchTracking, Resolve, Revlist;
  }

  lemma RunReaches(command: Command, r: Repo, revid: Commit, eff: Effects)
    requires Sound(r) && revid in r.history && (command != Checkout ==> CurrentBranch(r) != "")
    requires Reaches(eff.merge, r, revid) && Reaches(eff.rebase, r, revid)
    requires Run(command, r, revid, eff).0.Ok?
    ensures var r' := Run(command, r, revid, eff).1;
            && HeadCommit(r') in r'.history && revid in r'.history[HeadCommit(r')]
            && (command != Checkout ==> r'.head == r.head && CurrentBranch(r') == CurrentBranch(r))
            && r'.merge == r.merge && r'.remote == r.remote
  {
    hide IsSha;
  }

  /** What may start when: rebase and hard reset only on a clean worktree; hard reset only in
      the manifest project; and when git can list them, only without unpublished commits. */
  lemma CommandsAreSafe(st: Settings, o: Options, r: Repo, eff: Effects, call: Call)
    requires call in SyncLocalHalf(st, o, r, eff).calls
    ensures call.command in {Rebase, HardReset} ==> call.before.clean && CurrentBranch(call.before) != ""
    ensures call.command == HardReset ==> o.isManifest && !o.detachHead
    ensures call.command == Checkout && !o.detachHead ==>
              CurrentBranch(call.before) == "" || TrackBranch(call.before, CurrentBranch(call.before)) == ""
    ensures !o.isManifest && call.command != FastForward && call.command != Checkout
            ==> call.command == Rebase && st.rebase
  {
    hide DefaultTrackingBranch, IsSha, ResolveRemoteTracking, UpdateBranchTracking, Run, PostUpdate, Revlist;
  }

  // ------------------------------------- exactly what is run, and what is refused

  /** The published commit that counts; "" when there is none, and in the manifest project. */
  function PubId(o: Options, r: Repo): Commit {
    if o.isManifest || !o.checkPublished then "" else Resolve(r, REFS_PUB + ShortName(CurrentBranch(r)))
  }

  /** Some commit of `b` is not among those of `a`. */
  ghost predicate Lacks(r: Repo, a: Commit, b: Commit) {
    a in r.history && b in r.history && exists c :: c in r.history[b] && c !in r.history[a]
  }

  /** The branch is to be brought to the target: it is not there, tracks something, and the
      list of remote changes, where it is to decide, is not empty. */
  ghost predicate MustMove(st: Settings, o: Options, r: Repo, revid: Commit, eff: Effects) {
    && CurrentBranch(r) != "" && !o.detachHead && HeadId(r) != revid && TrackBranch(r, CurrentBranch(r)) != ""
    && (ListsFirst(st, o, r) ==> eff.remoteListOk && Lacks(r, HeadId(r), revid))
  }

  /** What is published is known to be merged, or nothing is published. */
  ghost predicate PublishedMerged(o: Options, r: Repo, revid: Commit, eff: Effects) {
    PubId(o, r) != "" ==> eff.publishedListOk && !Lacks(r, revid, PubId(o, r))
  }

  /** All local commits are published. */
  ghost predicate AllPublished(o: Options, r: Repo) {
    PubId(o, r) != "" && PubId(o, r) == HeadId(r)
  }

  /** The manifest project is to be moved to a revision that its branch does not track. */
  ghost predicate Retargets(st: Settings, o: Options, r: Repo) {
    o.isManifest && st.revision != TrackBranch(r, CurrentBranch(r))
  }

  /** The branch is known to have commits that its tracking branch does not have. */
  ghost predicate HasLocalChanges(st: Settings, r: Repo, eff: Effects) {
    eff.trackListOk && Lacks(r, TrackCommit(st, r), HeadId(r))
  }

  /** The branch moves, and nothing that is published stands against it. */
  ghost predicate MayMove(st: Settings, o: Options, r: Repo, revid: Commit, eff: Effects) {
    MustMove(st, o, r, revid, eff) && PublishedMerged(o, r, revid, eff)
  }

  /** It is neither fast forwarded because all is published, nor held back by the worktree. */
  ghost predicate MovesClean(st: Settings, o: Options, r: Repo, revid: Commit, eff: Effects) {
    MayMove(st, o, r, revid, eff) && !AllPublished(o, r) && r.clean
  }

  /** The sync leaves the branch: it is told to, there is none, or the branch tracks nothing. */
  ghost predicate Leaves(o: Options, r: Repo, revid: Commit) {
    if CurrentBranch(r) == "" || o.detachHead then !r.rebasing && (HeadId(r) != revid || o.detachHead)
    else HeadId(r) != revid && TrackBranch(r, CurrentBranch(r)) == ""
  }

  ghost predicate Begun(st: Settings, r: Repo, eff: Effects) {
    eff.workdirOk && st.revision != "" && Target(st, r, eff) != ""
  }

  const REFUSALS := {RebaseInProgress, PublishedUnknown, NotMerged, Dirty, LocalChanges}

  /** A sync that begins carries out what is decided on the state it finds. */
  lemma BegunPerforms(st: Settings, o: Options, r: Repo, eff: Effects)
    requires Sound(r) && Begun(st, r, eff)
    ensures var r1, revid := CleanPublished(r, eff.unremovable), Target(st, r, eff);
            && Sound(r1) && revid in r1.history
            && SyncLocalHalf(st, o, r, eff) == Perform(st, o, r1, revid, Decide(st, o, r1, revid, eff), eff)
  {
    hide Decide, Perform, IsSha, ShortName;
    CleanKeeps(r, eff.unremovable);
    TargetIsCommit(st, r, eff);
  }

  /** Exactly when a sync is refused, and why; nothing has been run then. */
  lemma RefusedExactly(st: Settings, o: Options, r: Repo, eff: Effects)
    requires Sound(r) && Begun(st, r, eff)
    ensures var r1, revid, sync := CleanPublished(r, eff.unremovable), Target(st, r, eff), SyncLocalHalf(st, o, r, eff);
            && (sync.result == Err(RebaseInProgress) <==> (CurrentBranch(r1) == "" || o.detachHead) && r1.rebasing)
            && (sync.result == Err(PublishedUnknown) <==>
                  MustMove(st, o, r1, revid, eff) && PubId(o, r1) != "" && !eff.publishedListOk)
            && (sync.result == Err(NotMerged) <==>
                  MustMove(st, o, r1, revid, eff) && eff.publishedListOk && Lacks(r1, revid, PubId(o, r1)))
            && (sync.result == Err(Dirty) <==>
                  MayMove(st, o, r1, revid, eff) && !AllPublished(o, r1) && !r1.clean)
            && (sync.result == Err(LocalChanges) <==>
                  MovesClean(st, o, r1, revid, eff) && Retargets(st, o, r1) && HasLocalChanges(st, r1, eff))
            && (sync.result.Err? && sync.result.error in REFUSALS ==> sync.calls == [] && sync.repo == r1)
  {
    hide Decide, Perform, CleanPublished, MustMove, MayMove, MovesClean, Lacks, Sound, CurrentBranch, HeadId, PubId,
      ShortName, IsSha, Leaves, SyncLocalHalf, Target, Begun, AllPublished, Retargets, HasLocalChanges;
    var r1, revid := CleanPublished(r, eff.unremovable), Target(st, r, eff);
    BegunPerforms(st, o, r, eff);
    DecidesRefusal(st, o, r1, revid, eff);
    OtherErrors(st, o, r1, revid, eff);
  }

  /** Exactly which command is run, if any; only one, and in the state the sync found. */
  lemma RunsExactly(st: Settings, o: Options, r: Repo, eff: Effects)
    requires Sound(r) && Begun(st, r, eff)
    ensures var r1, revid, calls :=
              CleanPublished(r, eff.unremovable), Target(st, r, eff), SyncLocalHalf(st, o, r, eff).calls;
            && |calls| <= 1
            && (Call(Checkout, r1) in calls <==> Leaves(o, r1, revid))
            && (Call(HardReset, r1) in calls <==>
                  MovesClean(st, o, r1, revid, eff) && Retargets(st, o, r1) && !HasLocalChanges(st, r1, eff))
            && (Call(Rebase, r1) in calls <==>
                  MovesClean(st, o, r1, revid, eff) && !Retargets(st, o, r1) && st.rebase)
            && (Call(FastForward, r1) in calls <==>
                  || (MayMove(st, o, r1, revid, eff) && AllPublished(o, r1))
                  || (MovesClean(st, o, r1, revid, eff) && !Retargets(st, o, r1) && !st.rebase))
            && forall call | call in calls :: call.before == r1
  {
    hide Decide, Perform, CleanPublished, MustMove, MayMove, MovesClean, Lacks, Sound, CurrentBranch, HeadId, PubId,
      ShortName, IsSha, Leaves, SyncLocalHalf, Target, Begun, AllPublished, Retargets, HasLocalChanges;
    var r1, revid := CleanPublished(r, eff.unremovable), Target(st, r, eff);
    BegunPerforms(st, o, r, eff);
    DecidesCommand(st, o, r1, revid, eff);
    OneCall(st, o, r1, revid, eff);
  }

  function EndingOf(command: Command, eff: Effects): Ending {
    match command
    case Checkout => eff.checkout
    case FastForward => eff.merge
    case Rebase => eff.rebase
    case HardReset => eff.reset
  }

  /** Exactly when a sync that is not refused fails: git does, or what follows it. Submodules
      are updated after every command but a hard reset, files are copied and linked always. */
  lemma FailsExactly(st: Settings, o: Options, r: Repo, eff: Effects)
    requires Begun(st, r, eff)
    ensures var sync := SyncLocalHalf(st, o, r, eff);
            var failed := exists call :: call in sync.calls && EndingOf(call.command, eff).Fails?;
            var moved := exists call :: call in sync.calls && call.command != HardReset;
            && (sync.result == Err(CommandFailed) <==> failed)
            && (sync.result == Err(SubmodulesFailed) <==> moved && !failed && o.submodules && !eff.submodulesOk)
            && (sync.result == Err(CopiesFailed) <==>
                  && !(sync.result.Err? && sync.result.error in REFUSALS)
                  && !failed && !(moved && o.submodules && !eff.submodulesOk) && !eff.copiesOk)
  {
    hide Decide, CleanPublished, Perform, IsSha, ShortName;
    var r1, revid := CleanPublished(r, eff.unremovable), Target(st, r, eff);
    var d := Decide(st, o, r1, revid, eff);
    RefusesOnly(st, o, r1, revid, eff);
    OneCall(st, o, r1, revid, eff);
    DoneFails(st, o, r1, revid, d, eff);
    var calls := SyncLocalHalf(st, o, r, eff).calls;
    if d.Do? { assert calls[0] == Call(d.command, r1) && calls[0] in calls; }
  }

  /** What carrying a decision out ends with. */
  lemma DoneFails(st: Settings, o: Options, r: Repo, revid: Commit, d: Decision, eff: Effects)
    ensures Perform(st, o, r, revid, d, eff).result ==
            if d.Refuse? then Err(d.error)
            else if d.Do? && EndingOf(d.command, eff).Fails? then Err(CommandFailed)
            else if d.Do? && d.command != HardReset && o.submodules && !eff.submodulesOk then Err(SubmodulesFailed)
            else if !eff.copiesOk then Err(CopiesFailed) else Ok
  {
    hide UpdateBranchTracking, DefaultTrackingBranch, CurrentBranch, TrackBranch, MoveTip;
  }

  lemma RefusesOnly(st: Settings, o: Options, r: Repo, revid: Commit, eff: Effects)
    ensures Decide(st, o, r, revid, eff).Refuse? ==> Decide(st, o, r, revid, eff).error in REFUSALS
  {
    hide DefaultTrackingBranch, CurrentBranch, TrackBranch, Revlist, Resolve, HeadId;
  }

  /** A sync that does not begin: the worktree cannot be made, there is no revision, or it
      does not resolve. */
  lemma NotBegun(st: Settings, o: Options, r: Repo, eff: Effects)
    requires !Begun(st, r, eff)
    ensures var sync := SyncLocalHalf(st, o, r, eff);
            && sync.calls == []
            && sync.result == (if !eff.workdirOk then Err(WorkdirFailed)
                               else if st.revision == "" then Ok else Err(InvalidTracking))
            && sync.repo == (if sync.result == Err(InvalidTracking) then CleanPublished(r, eff.unremovable) else r)
  {
    hide CleanPublished, ResolveRemoteTracking;
  }

  lemma OtherErrors(st: Settings, o: Options, r: Repo, revid: Commit, eff: Effects)
    ensures var d := Decide(st, o, r, revid, eff);
            var sync := Perform(st, o, r, revid, d, eff);
            if d.Refuse? then sync == Sync(Err(d.error), r, [])
            else sync.result in {Ok, Err(CommandFailed), Err(SubmodulesFailed), Err(CopiesFailed)}
  {
    hide Decide, UpdateBranchTracking, DefaultTrackingBranch, CurrentBranch, TrackBranch, MoveTip;
  }

  lemma OneCall(st: Settings, o: Options, r: Repo, revid: Commit, eff: Effects)
    ensures var d := Decide(st, o, r, revid, eff);
            Perform(st, o, r, revid, d, eff).calls == if d.Do? then [Call(d.command, r)] else []
  {
    hide Decide, UpdateBranchTracking, DefaultTrackingBranch, CurrentBranch, TrackBranch, MoveTip;
  }

  lemma ListsAre(r: Repo, a: Commit, b: Commit, ok: bool)
    ensures Revlist(r, b, a, ok) != {} <==> ok && Lacks(r, a, b)
  {
    if ok && Lacks(r, a, b) {
      var c :| c in r.history[b] && c !in r.history[a];
      assert c in Revlist(r, b, a, ok);
    }
    if Revlist(r, b, a, ok) != {} {
      var c :| c in Revlist(r, b, a, ok);
    }
  }

  lemma DecidesRefusal(st: Settings, o: Options, r: Repo, revid: Commit, eff: Effects)
    requires Sound(r) && revid in r.history
    ensures var d := Decide(st, o, r, revid, eff);
            && (d == Refuse(RebaseInProgress) <==> (CurrentBranch(r) == "" || o.detachHead) && r.rebasing)
            && (d == Refuse(PublishedUnknown) <==>
                  MustMove(st, o, r, revid, eff) && PubId(o, r) != "" && !eff.publishedListOk)
            && (d == Refuse(NotMerged) <==>
                  MustMove(st, o, r, revid, eff) && eff.publishedListOk && Lacks(r, revid, PubId(o, r)))
            && (d == Refuse(Dirty) <==> MayMove(st, o, r, revid, eff) && !AllPublished(o, r) && !r.clean)
            && (d == Refuse(LocalChanges) <==>
                  MovesClean(st, o, r, revid, eff) && Retargets(st, o, r) && HasLocalChanges(st, r, eff))
  {
    hide DefaultTrackingBranch, IsSha, UpdateBranchTracking, ResolveRemoteTracking, TrackBranch, ShortName, Resolve,
      Revlist, Lacks, CurrentBranch, HeadId;
    NoCommitLacks(r, revid);
    ListsAre(r, HeadId(r), revid, eff.remoteListOk);
    ListsAre(r, revid, PubId(o, r), true);
    ListsAre(r, TrackCommit(st, r), HeadId(r), eff.trackListOk);
  }

  lemma DecidesCommand(st: Settings, o: Options, r: Repo, revid: Commit, eff: Effects)
    requires Sound(r) && revid in r.history
    ensures var d := Decide(st, o, r, revid, eff);
            && (d == Do(Checkout) <==> Leaves(o, r, revid))
            && (d == Do(HardReset) <==>
                  MovesClean(st, o, r, revid, eff) && Retargets(st, o, r) && !HasLocalChanges(st, r, eff))
            && (d == Do(Rebase) <==> MovesClean(st, o, r, revid, eff) && !Retargets(st, o, r) && st.rebase)
            && (d == Do(FastForward) <==>
                  || (MayMove(st, o, r, revid, eff) && AllPublished(o, r))
                  || (MovesClean(st, o, r, revid, eff) && !Retargets(st, o, r) && !st.rebase))
  {
    hide DefaultTrackingBranch, IsSha, UpdateBranchTracking, ResolveRemoteTracking, TrackBranch, ShortName, Resolve,
      Revlist, Lacks, CurrentBranch, HeadId;
    NoCommitLacks(r, revid);
    ListsAre(r, HeadId(r), revid, eff.remoteListOk);
    ListsAre(r, revid, PubId(o, r), true);
    ListsAre(r, TrackCommit(st, r), HeadId(r), eff.trackListOk);
  }

  lemma NoCommitLacks(r: Repo, a: Commit)
    requires Sound(r)
    ensures !Lacks(r, a, "")
  {
  }

  /** What the branch's tracking ref resolves to; "" when it is gone. */
  function TrackCommit(st: Settings, r: Repo): Commit {
    ResolveRemoteTracking(st, r, TrackBranch(r, CurrentBranch(r)))
  }

  /** Every commit of the branch is still reachable after a reset to `revid`: from the new
      tip, or from the old tracking ref. */
  ghost predicate NothingLost(st: Settings, r: Repo, revid: Commit)
    requires revid in r.history && HeadId(r) in r.history
  {
    var trackid := TrackCommit(st, r);
    r.history[HeadId(r)] <= r.history[revid] + if trackid in r.history then r.history[trackid] else {}
  }

  /** A hard reset loses no commit exactly when the old tracking ref resolves and `rev-list`
      could compare with it, or the branch's tip lies below the new tip or that ref anyway.
      Otherwise `rev-list` fails, which counts as an empty list, and nothing holds the reset back. */
  lemma HardResetKeepsCommits(st: Settings, o: Options, r: Repo, revid: Commit, eff: Effects)
    requires Sound(r) && revid in r.history && Decide(st, o, r, revid, eff) == Do(HardReset)
    ensures HeadId(r) in r.history
    ensures NothingLost(st, r, revid) <==>
              || (TrackCommit(st, r) != "" && eff.trackListOk)
              || HeadId(r) in r.history[revid]
              || (TrackCommit(st, r) in r.history && HeadId(r) in r.history[TrackCommit(st, r)])
  {
    hide DefaultTrackingBranch, IsSha, UpdateBranchTracking, ResolveRemoteTracking, TrackBranch, ShortName;
    var trackid, headid := TrackCommit(st, r), HeadId(r);
    ResolvedIsCommit(r, GetHead(r));
    TrackIsCommit(st, r);
    assert headid in r.history && headid in r.history[headid];
    NothingListed(r, headid, trackid);
    assert eff.trackListOk && trackid != "" ==> Revlist(r, headid, trackid, true) == {};
  }

  lemma TrackIsCommit(st: Settings, r: Repo)
    requires Sound(r)
    ensures TrackCommit(st, r) == "" || TrackCommit(st, r) in r.history
  {
    hide RemoteTrackingRef, IsSha;
    ResolvedIsCommit(r, RemoteTrackingRef(st, TrackBranch(r, CurrentBranch(r))));
  }

  /** The state a hard reset loses a commit in: the tracking branch was pruned upstream. */
  lemma HardResetCanLose()
    ensures exists st: Settings, r: Repo, eff: Effects, revid: Commit ::
              && Sound(r) && eff.trackListOk && revid == Target(st, r, eff) && revid in r.history
              && Decide(st, Options(false, true, false, false), r, revid, eff) == Do(HardReset)
              && HeadId(r) in r.history && !NothingLost(st, r, revid)
  {
    var st := Settings("n", "", "", "", "g", true);
    var head, remote := REFS_HEADS + "m", REFS_REMOTES + "g" + "/" + "n";
    var r := Repo(Symbolic(head), map[head := "l", remote := "n"], map["m" := "o"], map[],
                  map["l" := {"l"}, "n" := {"n"}], true, false);
    var eff := Effects(true, {}, true, true, true, Fails(r), Fails(r), Fails(r), Fails(r), true, true);
    PrunedRepo(st, r, eff, head, remote);
    hide Target, Decide, TrackCommit, HeadId;
    assert !NothingLost(st, r, "n");
  }

  lemma PrunedRepo(st: Settings, r: Repo, eff: Effects, head: string, remote: string)
    requires st == Settings("n", "", "", "", "g", true)
    requires head == REFS_HEADS + "m" && remote == REFS_REMOTES + "g" + "/" + "n"
    requires r == Repo(Symbolic(head), map[head := "l", remote := "n"], map["m" := "o"], map[],
                       map["l" := {"l"}, "n" := {"n"}], true, false)
    requires eff.unremovable == {} && eff.remoteListOk && eff.trackListOk
    ensures Sound(r) && Target(st, r, eff) == "n"
    ensures Decide(st, Options(false, true, false, false), r, "n", eff) == Do(HardReset)
    ensures HeadId(r) == "l" && TrackCommit(st, r) == ""
  {
    hide IsSha, ShortName, RemoteTrackingRef, CleanPublished, DefaultTrackingBranch, IsHead;
    PrunedLookups(st, r, eff, head, remote);
    assert CurrentBranch(r) == "m" && HeadId(r) == "l";
    assert ResolveRemoteTracking(st, r, "o") == "" && ResolveRemoteTracking(st, r, "n") == "n";
    hide Resolve, CurrentBranch, HeadId, ResolveRemoteTracking;
    assert TrackBranch(r, "m") == "o";
  }

  lemma PrunedLookups(st: Settings, r: Repo, eff: Effects, head: string, remote: string)
    requires st == Settings("n", "", "", "", "g", true)
    requires head == REFS_HEADS + "m" && remote == REFS_REMOTES + "g" + "/" + "n"
    requires r == Repo(Symbolic(head), map[head := "l", remote := "n"], map["m" := "o"], map[],
                       map["l" := {"l"}, "n" := {"n"}], true, false)
    ensures CleanPublished(r, {}) == r && IsHead(head) && head != "" && DefaultTrackingBranch(st) == "n"
    ensures var old' := REFS_REMOTES + "g" + "/" + "o";
      && RemoteTrackingRef(st, "o") == old' && RemoteTrackingRef(st, "n") == remote
      && old' !in r.refs && !IsSha(old') && ShortName(head) == "m" && ShortName("o") == "o"
  {
    hide IsSha;
    PrunedNames(st, head, remote, r);
    ShortIsNoSha("n");
    assert head[5] == 'h' && remote[5] == 'r' && REFS_PUB[5] == 'p';
    assert CleanPublished(r, {}).refs == r.refs;
    hide RemoteTrackingRef, ShortName;
    assert !IsImmutable("n");
  }

  lemma PrunedNames(st: Settings, head: string, remote: string, r: Repo)
    requires st == Settings("n", "", "", "", "g", true)
    requires head == REFS_HEADS + "m" && remote == REFS_REMOTES + "g" + "/" + "n"
    requires r.refs == map[head := "l", remote := "n"]
    ensures var old' := REFS_REMOTES + "g" + "/" + "o";
      && RemoteTrackingRef(st, "o") == old' && RemoteTrackingRef(st, "n") == remote
      && old' !in r.refs && !IsSha(old') && ShortName(head) == "m" && ShortName("o") == "o"
  {
    hide IsSha;
    ShortIsNoSha("n");
    ShortIsNoSha("o");
    var old' := REFS_REMOTES + "g" + "/" + "o";
    assert old'[5] == 'r' && old'[|old'| - 1] == 'o' && remote[|remote| - 1] == 'n' && head[5] == 'h';
    assert old'[0] == 'r';
    SlashIsNoSha(old');
  }

  lemma ShortIsNoSha(rev: string)
    requires |rev| < 40
    ensures !IsSha(rev)
  {
  }

  lemma SlashIsNoSha(rev: string)
    requires rev != [] && rev[0] == 'r'
    ensures !IsSha(rev)
  {
    assert !IsHex(rev[0]);
  }

  // ------------------------------------------------------------ idempotence

  /** Between two runs, what makes the second one leave the branch: it is ahead of the
      target and tracks nothing. */
  predicate Unsettled(r: Repo, revid: Commit) {
    CurrentBranch(r) != "" && HeadId(r) != revid && TrackBranch(r, CurrentBranch(r)) == ""
  }

  /** A revision cannot be tracked if it is a commit id, or a full ref but not that of a branch. */
  lemma ImmutableMeans(rev: string)
    ensures IsImmutable(rev) <==>
              || (|rev| in {40, 64} && forall c | c in rev :: c in "0123456789abcdef")
              || ("refs/" <= rev && !("refs/heads/" <= rev))
  {
    if "refs/tags/" <= rev { assert rev[5] == 't'; }
    if "refs/heads/" <= rev { assert rev[5] == 'h'; }
    if IsSha(rev) {
      forall c | c in rev ensures c in "0123456789abcdef" {
        var k :| 0 <= k < |rev| && rev[k] == c;
        assert IsHex(rev[k]);
      }
    }
  }

  /** The default tracking branch: the first that can be tracked, of the revision, the
      destination branch, the upstream and the manifest's default revision. */
  lemma DefaultIsFirst(st: Settings)
    ensures var all := [st.revision, st.destBranch, st.upstream, st.manifestDefaultRevision];
            var track := DefaultTrackingBranch(st);
            if forall rev | rev in all :: rev == "" || IsImmutable(rev) then track == ""
            else
              && track != "" && !IsImmutable(track)
              && exists k | 0 <= k < 4 ::
                   all[k] == track && forall j | 0 <= j < k :: all[j] == "" || IsImmutable(all[j])
  {
    hide IsImmutable;
    var all := [st.revision, st.destBranch, st.upstream, st.manifestDefaultRevision];
    var track := DefaultTrackingBranch(st);
    assert all[0] in all && all[1] in all && all[2] in all && all[3] in all;
    if track != "" {
      var k := if track == all[0] then 0 else if track == all[1] then 1 else if track == all[2] then 2 else 3;
      assert all[k] == track;
    }
  }

  /** What is written into the configuration: the full ref of the branch to track, and the remote
      if there is one; or nothing for that branch.  Other branches are left alone. */
  lemma TrackingConfig(r: Repo, branch: string, remote: string, track: string)
    ensures var q := UpdateBranchTracking(r, branch, remote, track);
            && q == r.(merge := q.merge, remote := q.remote)
            && q.merge - {branch} == r.merge - {branch} && q.remote - {branch} == r.remote - {branch}
            && (track == "" || IsImmutable(track) ==> branch !in q.merge && branch !in q.remote)
            && (track != "" && !IsImmutable(track) ==>
                  && branch in q.merge && q.merge[branch] == "refs/heads/" + ShortName(track)
                  && Get(q.remote, branch) == if remote != "" then remote else Get(r.remote, branch))
  {
    hide IsSha;
    SetAndUnset(r.merge, branch, if IsHead(track) then track else REFS_HEADS + track);
    SetAndUnset(r.remote, branch, remote);
    Trackable(track);
    hide IsImmutable, IsHead;
    assert IsHead(track) ==> REFS_HEADS + ShortName(track) == track by { HeadName(track); }
    assert !IsHead(track) ==> ShortName(track) == track by { HeadName(track); }
  }

  lemma SetAndUnset(m: map<string, string>, key: string, value: string)
    ensures m[key := value] - {key} == m - {key} && (m - {key}) - {key} == m - {key}
    ensures key !in m - {key} && forall k | k != key :: Get(m - {key}, k) == Get(m, k)
  {
  }

  lemma Trackable(track: string)
    ensures IsImmutable(track) <==> IsSha(track) || (REFS <= track && !IsHead(track))
  {
    if REFS_TAGS <= track { assert track[5] == 't'; }
    if IsHead(track) { assert track[5] == 'h'; }
  }

  lemma HeadName(track: string)
    ensures if IsHead(track) then REFS_HEADS + ShortName(track) == track else ShortName(track) == track
  {
  }

  /** What the commands do when they succeed: the first detaches at the target, the others move
      the branch they are on, to the target or to what git has made; only a hard reset cleans up. */
  lemma CommandsMove(command: Command, r: Repo, target: Commit, eff: Effects)
    requires Sound(r) && (command == Checkout || CurrentBranch(r) != "") && EndingOf(command, eff).Succeeds?
    ensures var q := Run(command, r, target, eff).1;
            && Run(command, r, target, eff).0 == Ok
            && q.merge == r.merge && q.remote == r.remote && q.rebasing == r.rebasing
            && HeadCommit(q) == (if command in {Checkout, HardReset} then target else EndingOf(command, eff).tip)
            && (if command == Checkout then q.head == Detached(target) && q.refs == r.refs
                else q.head == r.head && q.refs == r.refs[r.head.ref := HeadCommit(q)])
            && q.clean == (r.clean || command == HardReset)
            && q.history == if command in {FastForward, Rebase} then EndingOf(command, eff).history else r.history
  {
    hide IsSha;
  }

  lemma ConfigIdempotent(r: Repo, branch: string, remote: string, track: string)
    ensures var r' := UpdateBranchTracking(r, branch, remote, track);
            UpdateBranchTracking(r', branch, remote, track) == r'
  {
    hide IsSha, IsHead;
    assert (r.merge - {branch}) - {branch} == r.merge - {branch};
    assert (r.remote - {branch}) - {branch} == r.remote - {branch};
    var merge := if IsHead(track) then track else REFS_HEADS + track;
    assert r.merge[branch := merge][branch := merge] == r.merge[branch := merge];
    assert r.remote[branch := remote][branch := remote] == r.remote[branch := remote];
  }

  lemma PostIdempotent(st: Settings, o: Options, r: Repo, branch: string, track: string, u1: bool, u2: bool,
                       e1: Effects, e2: Effects)
    requires branch == "" || track == TrackBranch(r, branch)
    ensures var r' := PostUpdate(st, o, r, branch, track, u1, e1).1;
            && PostUpdate(st, o, r', "", "", u2, e2).1 == r'
            && (branch != "" ==> PostUpdate(st, o, r', branch, TrackBranch(r', branch), u2, e2).1 == r')
  {
    hide IsSha, IsHead, DefaultTrackingBranch, TrackBranch;
    ConfigIdempotent(r, branch, st.remoteName, DefaultTrackingBranch(st));
  }

  lemma {:induction false} CleanTwice(r: Repo, q: Repo, unremovable: set<string>)
    requires q.refs.Keys == CleanPublished(r, unremovable).refs.Keys
    ensures CleanPublished(q, unremovable) == q
  {
    var r1 := CleanPublished(r, unremovable);
    forall ref | ref in q.refs && REFS_PUB <= ref && REFS_HEADS + ref[|REFS_PUB|..] !in q.refs
      ensures ref in unremovable
    {
      var branch := REFS_HEADS + ref[|REFS_PUB|..];
      assert ref in r1.refs && branch[5] == 'h';
      assert branch in r.refs ==> branch in r1.refs;
    }
    assert CleanPublished(q, unremovable).refs == q.refs;
  }

  /** Between the runs, the project sits on the target, or on a branch that contains it. */
  ghost predicate Settled(o: Options, q: Repo, revid: Commit) {
    && revid in q.history && SoundHistory(q.history)
    && (CurrentBranch(q) == "" ==> q.head == Detached(revid) || (HeadId(q) == revid && !o.detachHead))
    && (CurrentBranch(q) != "" ==> !o.detachHead && HeadId(q) in q.history && revid in q.history[HeadId(q)])
  }

  lemma PerformSettles(st: Settings, o: Options, r: Repo, revid: Commit, eff: Effects)
    requires Sound(r) && revid in r.history
    requires Reaches(eff.merge, r, revid) && Reaches(eff.rebase, r, revid) && eff.remoteListOk
    requires Perform(st, o, r, revid, Decide(st, o, r, revid, eff), eff).result.Ok?
    ensures Settled(o, Perform(st, o, r, revid, Decide(st, o, r, revid, eff), eff).repo, revid)
  {
    hide DefaultTrackingBranch, IsSha, ResolveRemoteTracking, UpdateBranchTracking, PostUpdate, ShortName,
      TrackBranch, Revlist;
    var d := Decide(st, o, r, revid, eff);
    var branch := CurrentBranch(r);
    var track := if branch == "" then "" else TrackBranch(r, branch);
    PerformReachesTarget(st, o, r, revid, eff);
    if d.Keep? {
      PostKeeps(st, o, r, branch, track, false, eff);
    } else {
      DetachesWhen(st, o, r, revid, eff);
      var r' := Run(d.command, r, revid, eff).1;
      PostKeeps(st, o, r', branch, track, d.command != HardReset, eff);
    }
  }

  /** A second run from a settled state changes nothing, or leaves an unsettled branch. */
  lemma SecondRun(st: Settings, o: Options, q: Repo, revid: Commit, eff: Effects)
    requires Settled(o, q, revid) && !o.isManifest && eff.remoteListOk
    requires Perform(st, o, q, revid, Decide(st, o, q, revid, eff), eff).result.Ok?
    requires var branch := CurrentBranch(q);
             q == PostUpdate(st, o, q, branch, if branch == "" then "" else TrackBranch(q, branch), true, eff).1
    ensures var r' := Perform(st, o, q, revid, Decide(st, o, q, revid, eff), eff).repo;
            if Unsettled(q, revid) then r'.head == Detached(revid) != q.head else r' == q
  {
    hide DefaultTrackingBranch, IsSha, ResolveRemoteTracking, UpdateBranchTracking, Resolve;
    var branch := CurrentBranch(q);
    var track := if branch == "" then "" else TrackBranch(q, branch);
    if branch != "" {
      assert Revlist(q, revid, HeadId(q), true) == {};
    }
    PostKeeps(st, o, q.(head := Detached(revid)), branch, track, true, eff);
  }

  /** The target does not move under a successful first run. */
  lemma TargetStays(st: Settings, o: Options, r: Repo, revid: Commit, eff: Effects)
    requires Sound(r) && revid == ResolveRemoteTracking(st, r, st.revision) != ""
    requires Reaches(eff.merge, r, revid) && Reaches(eff.rebase, r, revid)
    requires Perform(st, o, r, revid, Decide(st, o, r, revid, eff), eff).result.Ok?
    ensures var q := Perform(st, o, r, revid, Decide(st, o, r, revid, eff), eff).repo;
            q.refs.Keys == r.refs.Keys && ResolveRemoteTracking(st, q, st.revision) == revid
  {
    hide DefaultTrackingBranch, UpdateBranchTracking, RemoteTrackingRef, Revlist, IsHex;
    var d := Decide(st, o, r, revid, eff);
    var branch := CurrentBranch(r);
    var track := if branch == "" then "" else TrackBranch(r, branch);
    if d.Keep? {
      PostKeeps(st, o, r, branch, track, false, eff);
    } else {
      MovesOnlyApart(st, o, r, revid, eff);
      var r' := Run(d.command, r, revid, eff).1;
      RunKeepsTarget(d.command, r, RemoteTrackingRef(st, st.revision), revid, eff);
      PostKeeps(st, o, r', branch, track, d.command != HardReset, eff);
    }
  }

  /** A branch is moved only while its tip is not the target. */
  lemma MovesOnlyApart(st: Settings, o: Options, r: Repo, revid: Commit, eff: Effects)
    ensures var d := Decide(st, o, r, revid, eff);
            d.Do? && d.command != Checkout ==> CurrentBranch(r) != "" && HeadId(r) != revid
  {
    hide DefaultTrackingBranch, IsSha, UpdateBranchTracking, Resolve, Revlist;
  }

  lemma RunKeepsTarget(command: Command, r: Repo, rev: string, revid: Commit, eff: Effects)
    requires Sound(r) && Resolve(r, rev) == revid != ""
    requires command != Checkout ==> CurrentBranch(r) != "" && HeadId(r) != revid
    requires Reaches(eff.merge, r, revid) && Reaches(eff.rebase, r, revid)
    requires Run(command, r, revid, eff).0.Ok?
    ensures var r' := Run(command, r, revid, eff).1;
            r'.refs.Keys == r.refs.Keys && Resolve(r', rev) == revid
  {
    if command != Checkout {
      HeadIsNoSha(GetHead(r));
    }
  }

  lemma HeadIsNoSha(ref: string)
    requires IsHead(ref)
    ensures !IsSha(ref)
  {
    SlashIsNoSha(ref);
  }

  /** Idempotence, exactly: a second successful sync right after a first one leaves the whole
      repository as it was, unless the first one ended ahead of the target on a branch that
      tracks nothing any more; then the second one leaves that branch. */
  lemma SyncTwice(st: Settings, o: Options, r: Repo, e1: Effects, e2: Effects)
    requires Sound(r) && !o.isManifest && st.revision != "" && e1.unremovable == e2.unremovable
    requires Faithful(st, r, e1) && e2.remoteListOk
    requires var first := SyncLocalHalf(st, o, r, e1);
             first.result.Ok? && SyncLocalHalf(st, o, first.repo, e2).result.Ok?
    ensures var q := SyncLocalHalf(st, o, r, e1).repo;
            var r' := SyncLocalHalf(st, o, q, e2).repo;
            && Target(st, q, e2) == Target(st, r, e1)
            && if Unsettled(q, Target(st, r, e1)) then r'.head == Detached(Target(st, r, e1)) != q.head else r' == q
  {
    hide DefaultTrackingBranch, IsSha, UpdateBranchTracking, RemoteTrackingRef, Decide, Run, PostUpdate, TrackBranch;
    var r1, revid := CleanPublished(r, e1.unremovable), Target(st, r, e1);
    CleanKeeps(r, e1.unremovable);
    ResolvedIsCommit(r1, RemoteTrackingRef(st, st.revision));
    PerformSettles(st, o, r1, revid, e1);
    TargetStays(st, o, r1, revid, e1);
    var q := SyncLocalHalf(st, o, r, e1).repo;
    CleanTwice(r, q, e1.unremovable);
    PerformIsPosted(st, o, r1, revid, e1, e2);
    SecondRun(st, o, q, revid, e2);
  }

  /** Such a first sync: the manifest pins a tag, so the branch is left tracking nothing,
      one commit ahead of the tag; the second sync then leaves the branch. */
  lemma SecondSyncCanLeave()
    ensures exists st: Settings, o: Options, r: Repo, e: Effects ::
              && Sound(r) && !o.isManifest && st.revision != "" && Faithful(st, r, e)
              && SyncLocalHalf(st, o, r, e).result.Ok?
              && SyncLocalHalf(st, o, SyncLocalHalf(st, o, r, e).repo, e).result.Ok?
              && SyncLocalHalf(st, o, SyncLocalHalf(st, o, r, e).repo, e).repo.head
                 != SyncLocalHalf(st, o, r, e).repo.head
  {
    var st, o := Settings(REFS_TAGS + "t", "", "", "", "g", true), Options(false, false, false, false);
    var head, tag := REFS_HEADS + "m", REFS_TAGS + "t";
    var r := Repo(Symbolic(head), map[head := "l", tag := "n"], map["m" := "o"], map[],
                  map["l" := {"l", "n"}, "n" := {"n"}], true, false);
    var e := Effects(true, {}, true, true, true, Succeeds("n", map[]), Fails(r), Fails(r), Fails(r), true, true);
    var q := r.(merge := map[], remote := map[]);
    PinnedTag(st, r, e, head, tag);
    PinnedTag(st, q, e, head, tag);
    hide IsSha, DefaultTrackingBranch, ResolveRemoteTracking, CleanPublished, ShortName, Resolve, HeadId, CurrentBranch;
    assert TrackBranch(r, "m") == "o" && TrackBranch(q, "m") == "" by { PinnedTrack(r, q); }
    assert Revlist(r, "n", "l", true) == {};
    assert r.merge - {"m"} == map[] && r.remote - {"m"} == map[];
    assert Decide(st, o, r, "n", e) == Keep;
    assert SyncLocalHalf(st, o, r, e) == Sync(Ok, q, []);
    assert Decide(st, o, q, "n", e) == Do(Checkout);
    var again := SyncLocalHalf(st, o, q, e);
    assert again.result.Ok? && again.repo.head == Detached("n") != q.head;
    PinnedSound(r, e);
    hide SyncLocalHalf, Sound;
    assert st.revision != "" && Faithful(st, r, e);
  }

  lemma PinnedSound(r: Repo, e: Effects)
    requires r.head.Symbolic? && (forall ref | ref in r.refs :: r.refs[ref] in {"l", "n"})
    requires r.history == map["l" := {"l", "n"}, "n" := {"n"}] && e.merge.Fails? && e.rebase.Fails?
    ensures Sound(r) && forall st :: Promised(st, r, e)
  {
  }

  lemma PinnedTag(st: Settings, r: Repo, e: Effects, head: string, tag: string)
    requires st == Settings(tag, "", "", "", "g", true)
    requires head == REFS_HEADS + "m" && tag == REFS_TAGS + "t"
    requires r.head == Symbolic(head) && r.refs == map[head := "l", tag := "n"]
    ensures CleanPublished(r, {}) == r && ResolveRemoteTracking(st, r, tag) == "n"
    ensures HeadId(r) == "l" && CurrentBranch(r) == "m" && DefaultTrackingBranch(st) == ""
  {
    hide IsSha;
    assert head[5] == 'h' && tag[5] == 't' && REFS_PUB[5] == 'p' && REFS_HEADS[5] == 'h';
    SlashIsNoSha(tag);
    SlashIsNoSha(head);
    assert CleanPublished(r, {}).refs == r.refs;
    assert ShortName(head) == "m";
  }

  /** A sync that reports success without having the target: listing the remote changes fails. */
  lemma FailedListMissesTarget()
    ensures exists st: Settings, o: Options, r: Repo, e: Effects ::
              && Sound(r) && !o.isManifest && st.revision != "" && Promised(st, r, e)
              && SyncLocalHalf(st, o, r, e).result.Ok?
              && !Reached(SyncLocalHalf(st, o, r, e).repo, Target(st, r, e))
  {
    var st, o := Settings(REFS_TAGS + "t", "", "", "", "g", true), Options(false, false, false, false);
    var head, tag := REFS_HEADS + "m", REFS_TAGS + "t";
    var r := Repo(Symbolic(head), map[head := "l", tag := "n"], map["m" := "o"], map[],
                  map["l" := {"l"}, "n" := {"n"}], true, false);
    var e := Effects(true, {}, false, true, true, Fails(r), Fails(r), Fails(r), Fails(r), true, true);
    PinnedTag(st, r, e, head, tag);
    assert TrackBranch(r, "m") == "o" by { PinnedTrack(r, r.(merge := map[])); }
    assert Target(st, r, e) == "n" && Decide(st, o, r, "n", e) == Keep by {
      hide IsSha, DefaultTrackingBranch, ResolveRemoteTracking, CleanPublished, ShortName, Resolve, HeadId,
        CurrentBranch,
        TrackBranch;
    }
    assert Sound(r) && Promised(st, r, e);
    assert SyncLocalHalf(st, o, r, e).result.Ok? by {
      hide IsSha, DefaultTrackingBranch, ResolveRemoteTracking, CleanPublished, ShortName, Resolve, Decide,
        CurrentBranch;
    }
    hide Decide, SyncLocalHalf, Target;
    SyncReachesTarget(st, o, r, e);
    assert !Reached(r, "n");
  }

  lemma PinnedTrack(r: Repo, q: Repo)
    requires r.merge == map["m" := "o"] && q.merge == map[]
    ensures TrackBranch(r, "m") == "o" && TrackBranch(q, "m") == ""
  {
  }

  /** Running `PostUpdate` again on the outcome of a run changes nothing. */
  lemma PerformIsPosted(st: Settings, o: Options, r: Repo, revid: Commit, e1: Effects, e2: Effects)
    requires Sound(r) && revid in r.history
    requires Reaches(e1.merge, r, revid) && Reaches(e1.rebase, r, revid) && e1.remoteListOk
    requires Perform(st, o, r, revid, Decide(st, o, r, revid, e1), e1).result.Ok?
    ensures var q := Perform(st, o, r, revid, Decide(st, o, r, revid, e1), e1).repo;
            var branch := CurrentBranch(q);
            var track := if branch == "" then "" else TrackBranch(q, branch);
            PostUpdate(st, o, q, branch, track, true, e2).1 == q
  {
    hide DefaultTrackingBranch, IsSha, UpdateBranchTracking, ResolveRemoteTracking, Revlist, PostUpdate, ShortName;
    var d := Decide(st, o, r, revid, e1);
    var branch := CurrentBranch(r);
    var track := if branch == "" then "" else TrackBranch(r, branch);
    if d.Keep? {
      PostKeeps(st, o, r, branch, track, false, e1);
      PostIdempotent(st, o, r, branch, track, false, true, e1, e2);
    } else {
      DetachesWhen(st, o, r, revid, e1);
      var r' := Run(d.command, r, revid, e1).1;
      RunReaches(d.command, r, revid, e1);
      PostKeeps(st, o, r', branch, track, d.command != HardReset, e1);
      PostIdempotent(st, o, r', branch, track, d.command != HardReset, true, e1, e2);
    }
  }

  lemma UpdatedTracking(r: Repo, branch: string, remote: string, track: string)
    requires !IsImmutable(track)
    ensures TrackBranch(UpdateBranchTracking(r, branch, remote, track), branch)
            == if track == "" then "" else ShortName(track)
  {
    hide IsSha;
  }

  /** Who decides which case `SyncTwice` meets: with a default tracking branch a first run never
      ends unsettled; without one it does whenever it ends on a branch ahead of the target. */
  lemma DefaultTrackSettles(st: Settings, o: Options, r: Repo, eff: Effects)
    requires Sound(r) && Faithful(st, r, eff) && st.revision != ""
    requires SyncLocalHalf(st, o, r, eff).result.Ok? && !o.isManifest
    ensures var q, revid := SyncLocalHalf(st, o, r, eff).repo, Target(st, r, eff);
            && (ShortName(DefaultTrackingBranch(st)) != "" ==> !Unsettled(q, revid))
            && (DefaultTrackingBranch(st) == "" && CurrentBranch(q) != "" && HeadId(q) != revid ==> Unsettled(q, revid))
  {
    hide DefaultTrackingBranch, IsSha, UpdateBranchTracking, RemoteTrackingRef, Perform, ShortName, Decide, Unsettled;
    var r1 := CleanPublished(r, eff.unremovable);
    CleanKeeps(r, eff.unremovable);
    ResolvedIsCommit(r1, RemoteTrackingRef(st, st.revision));
    PerformTracks(st, o, r1, Target(st, r, eff), eff);
  }

  lemma PerformTracks(st: Settings, o: Options, r: Repo, revid: Commit, eff: Effects)
    requires Sound(r) && revid in r.history
    requires Reaches(eff.merge, r, revid) && Reaches(eff.rebase, r, revid)
    requires Perform(st, o, r, revid, Decide(st, o, r, revid, eff), eff).result.Ok?
    ensures var q := Perform(st, o, r, revid, Decide(st, o, r, revid, eff), eff).repo;
            && (ShortName(DefaultTrackingBranch(st)) != "" ==> !Unsettled(q, revid))
            && (DefaultTrackingBranch(st) == "" && CurrentBranch(q) != "" && HeadId(q) != revid ==> Unsettled(q, revid))
  {
    hide DefaultTrackingBranch, IsSha, UpdateBranchTracking, RemoteTrackingRef, PostUpdate, Decide, Run;
    var d := Decide(st, o, r, revid, eff);
    var branch := CurrentBranch(r);
    var track := if branch == "" then "" else TrackBranch(r, branch);
    DetachesWhen(st, o, r, revid, eff);
    KeepsTracked(st, o, r, revid, eff);
    MovesOnlyApart(st, o, r, revid, eff);
    if d.Keep? {
      PostTracks(st, o, r, branch, track, false, eff);
    } else {
      var r' := Run(d.command, r, revid, eff).1;
      RunReaches(d.command, r, revid, eff);
      CheckoutDetaches(d.command, r, revid, eff);
      PostTracks(st, o, r', branch, track, d.command != HardReset, eff);
    }
  }

  lemma CheckoutDetaches(command: Command, r: Repo, revid: Commit, eff: Effects)
    requires Run(command, r, revid, eff).0.Ok?
    ensures command == Checkout ==> CurrentBranch(Run(command, r, revid, eff).1) == ""
  {
  }

  /** A project kept or moved on its branch, away from the target, tracks something. */
  lemma KeepsTracked(st: Settings, o: Options, r: Repo, revid: Commit, eff: Effects)
    ensures var d := Decide(st, o, r, revid, eff);
            (d.Keep? || (d.Do? && d.command != Checkout)) && CurrentBranch(r) != "" && HeadId(r) != revid ==>
              TrackBranch(r, CurrentBranch(r)) != ""
  {
    hide DefaultTrackingBranch, IsSha, UpdateBranchTracking, Resolve, Revlist;
  }

  /** Whatever the outcome, the branch tracks the project's default, if there is one, and
      else nothing; and no other part of the repository changes. */
  lemma PostTracks(st: Settings, o: Options, r: Repo, branch: string, track: string, update: bool, eff: Effects)
    ensures var q := PostUpdate(st, o, r, branch, track, update, eff).1;
            var default := DefaultTrackingBranch(st);
            && q == r.(merge := q.merge, remote := q.remote)
            && (branch != "" && track == TrackBranch(r, branch)
                ==> TrackBranch(q, branch) == if track == default then track else ShortName(default))
  {
    hide DefaultTrackingBranch, IsSha, UpdateBranchTracking;
    PostKeeps(st, o, r, branch, track, update, eff);
    UpdatedTracking(r, branch, st.remoteName, DefaultTrackingBranch(st));
  }
}
