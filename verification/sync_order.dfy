/** cmd/sync.go, `LocalHalf`: when a project is sure to be synced after the one above
    it, although the tree does not put it there. */
module SyncOrder {
  import opened Text
  import opened ProjectTree
  import opened SyncScheduler

  // ------------------------------------------- what holds of all trees on the way

  /** Passes from a forest to its members, its rest and their children. */
  ghost predicate Hereditary(h: seq<Tree> -> bool) {
    && (forall ts | ts != [] && h(ts) :: h([ts[0]]) && h(ts[1..]))
    && (forall t: Tree | h([t]) :: h(t.trees))
  }

  ghost predicate HoldsOf(h: seq<Tree> -> bool, w: Worker) {
    && (w.Idle? || w.Exited? || h([w.job.tree]))
    && (w.Running? ==> w.job.tree.project.Some?)
  }

  ghost predicate Everywhere(h: seq<Tree> -> bool, s: State) {
    && (forall k | 0 <= k < |s.buf| :: h([s.buf[k].tree]))
    && (forall k | 0 <= k < |s.workers| :: HoldsOf(h, s.workers[k]))
    && (forall k | 0 <= k < |s.senders| :: h(s.senders[k].trees))
  }

  lemma EverywhereStep(h: seq<Tree> -> bool, c: Config, s: State, a: Action)
    requires Hereditary(h) && h([c.root]) && Everywhere(h, s) && Enabled(c, s, a)
    ensures Everywhere(h, Apply(c, s, a))
  {
  }

  lemma {:induction false} EverywhereAlways(h: seq<Tree> -> bool, c: Config, s: State, schedule: seq<Action>)
    requires Hereditary(h) && h([c.root]) && Everywhere(h, s) && Runs(c, s, schedule)
    ensures Everywhere(h, After(c, s, schedule))
    decreases |schedule|
  {
    hide Hereditary, Everywhere;
    if schedule != [] {
      EverywhereStep(h, c, s, schedule[0]);
      EverywhereAlways(h, c, Apply(c, s, schedule[0]), schedule[1..]);
    }
  }

  lemma {:induction false} RunsConcat(c: Config, s: State, a: seq<Action>, b: seq<Action>)
    requires Runs(c, s, a) && Runs(c, After(c, s, a), b)
    ensures Runs(c, s, a + b) && After(c, s, a + b) == After(c, After(c, s, a), b)
    decreases |a|
  {
    hide Enabled, Apply;
    if a == [] {
      assert a + b == b;
    } else {
      assert (a + b)[0] == a[0] && (a + b)[1..] == a[1..] + b;
      RunsConcat(c, Apply(c, s, a[0]), a[1..], b);
    }
  }

  lemma RunsFirst(c: Config, s: State, a: Action, rest: seq<Action>)
    requires Enabled(c, s, a) && Runs(c, Apply(c, s, a), rest)
    ensures Runs(c, s, [a] + rest) && After(c, s, [a] + rest) == After(c, Apply(c, s, a), rest)
  {
    hide Enabled, Apply;
    assert ([a] + rest)[0] == a && ([a] + rest)[1..] == rest;
  }

  // --------------------------------------------------- two workers: overtaking

  /** A tree with a project at every node but the root, at distinct paths, among them these. */
  ghost predicate Setting(c: Config, p: string, q: string) {
    && Valid(c) && Complete(c.root.trees) && Distinct(ForestPaths(c.root.trees))
    && p in ForestPaths(c.root.trees) && q in ForestPaths(c.root.trees) && p != q
  }

  lemma WeighsOne(c: Config, p: string, q: string)
    requires Setting(c, p, q)
    ensures All(AtPath(p), c) == ForestWeight(AtPath(p), None, c.root.trees) == 1
    ensures All(AtPath(q), c) == ForestWeight(AtPath(q), None, c.root.trees) == 1
  {
    var paths := ForestPaths(c.root.trees);
    PathWeight(p, None, c.root.trees);
    PathWeight(q, None, c.root.trees);
    DistinctCount(paths, p);
    DistinctCount(paths, q);
  }

  /** Only beginning a project starts it. */
  lemma StartsOnlyAtBegin(c: Config, s: State, a: Action, p: string)
    requires Enabled(c, s, a)
    ensures var s' := Apply(c, s, a);
      Started(AtPath(p), s'.log) == Started(AtPath(p), s.log)
        + if a.Begin? && s.workers[a.i].job.tree.project.Some? && s.workers[a.i].job.tree.path == p then 1 else 0
  {
    hide Total;
    var s' := Apply(c, s, a);
    if |s'.log| > |s.log| {
      TotalAppend(OfEvent(AtPath(p)), s.log, s'.log[|s.log|]);
    }
  }

  ghost predicate RunsAt(s: State, i: nat, p: string) {
    i < |s.workers| && s.workers[i].Running? && s.workers[i].job.tree.path == p
  }

  /** Every run can be continued until `p` is being synced. */
  lemma {:induction false} ReachRunning(c: Config, s: State, p: string, q: string)
    returns (schedule: seq<Action>, i: nat)
    requires Setting(c, p, q) && Inv(c, s) && Started(AtPath(p), s.log) == 0
    ensures Runs(c, s, schedule) && Inv(c, After(c, s, schedule)) && RunsAt(After(c, s, schedule), i, p)
    decreases Left(c, s)
  {
    hide Inv, Left, Started, Complete, ForestPaths, Enabled, Apply;
    if Stuck(c, s) {
      StuckMeans(c, s);
      WeighsOne(c, p, q);
      assert Conserved(AtPath(p), c, s) by { InvConserves(c, s, AtPath(p)); }
      assert false;
    } else {
      var a :| Enabled(c, s, a);
      var s1 := Apply(c, s, a);
      NeverPanics(c, s, a);
      InvStep(c, s, a);
      LeftStep(c, s, a);
      StartsOnlyAtBegin(c, s, a, p);
      if Started(AtPath(p), s1.log) == 0 {
        var rest;
        rest, i := ReachRunning(c, s1, p, q);
        schedule := [a] + rest;
        RunsFirst(c, s, a, rest);
      } else {
        schedule, i := [a] + [], a.i;
        RunsFirst(c, s, a, []);
        BeginRuns(c, s, a);
      }
    }
  }

  lemma BeginRuns(c: Config, s: State, a: Action)
    requires Enabled(c, s, a) && a.Begin? && s.workers[a.i].job.tree.project.Some?
    ensures RunsAt(Apply(c, s, a), a.i, s.workers[a.i].job.tree.path)
  {
  }

  lemma InvConserves(c: Config, s: State, w: Weight)
    requires Inv(c, s)
    ensures Conserved(w, c, s)
  {
  }

  /** The others can go on until only the worker at `i` can move. */
  lemma {:induction false} GoOnWithout(c: Config, s: State, i: nat, p: string) returns (schedule: seq<Action>)
    requires Valid(c) && Inv(c, s) && RunsAt(s, i, p)
    ensures Runs(c, s, schedule)
    ensures var s' := After(c, s, schedule);
      Inv(c, s') && RunsAt(s', i, p) && forall a | Enabled(c, s', a) :: a == Finish(i)
    decreases Left(c, s)
  {
    hide Inv, Left, Enabled, Apply, RunsAt;
    if exists a :: Enabled(c, s, a) && a != Finish(i) {
      var a :| Enabled(c, s, a) && a != Finish(i);
      NeverPanics(c, s, a);
      InvStep(c, s, a);
      LeftStep(c, s, a);
      StaysRunning(c, s, a, i, p);
      var rest := GoOnWithout(c, Apply(c, s, a), i, p);
      schedule := [a] + rest;
      RunsFirst(c, s, a, rest);
    } else {
      schedule := [];
    }
  }

  lemma StaysRunning(c: Config, s: State, a: Action, i: nat, p: string)
    requires Enabled(c, s, a) && RunsAt(s, i, p) && a != Finish(i)
    ensures RunsAt(Apply(c, s, a), i, p)
  {
  }

  ghost function NotBelow(p: string, q: string): seq<Tree> -> bool {
    (ts: seq<Tree>) => !Below(ts, p, q)
  }

  lemma NotBelowHereditary(p: string, q: string)
    ensures Hereditary(NotBelow(p, q))
  {
    hide ForestPaths;
    forall ts: seq<Tree> | ts != [] && !Below(ts, p, q) ensures !Below([ts[0]], p, q) && !Below(ts[1..], p, q) {
      BelowUnfold(ts[0], [], p, q);
      assert [ts[0]] + [] == [ts[0]];
    }
    forall t: Tree | !Below([t], p, q) ensures !Below(t.trees, p, q) {
      BelowUnfold(t, [], p, q);
      assert [t] + [] == [t];
    }
  }

  /** While `p` runs it has not returned, and main waits. */
  lemma WhileRunning(c: Config, s: State, i: nat, p: string, q: string)
    requires Setting(c, p, q) && Inv(c, s) && RunsAt(s, i, p) && s.workers[i].job.tree.project.Some?
    ensures Return(p) !in s.log && s.main.Waiting?
  {
    hide Total, ForestWeight, TreeWeight, ForestPaths, Complete;
    WeighsOne(c, p, q);
    MissingMeans(c);
    assert Conserved(AtPath(p), c, s) && Paired(s, p);
    TotalHas(OfRunning(p), s.workers, i);
    TotalHas(OfBusy(One()), s.workers, i);
    if Return(p) in s.log {
      var k :| 0 <= k < |s.log| && s.log[k] == Return(p);
      TotalHas(OfReturn(p), s.log, k);
    }
  }

  /** When only the worker of `p` can move, a project that is not below `p` has started. */
  lemma OthersStarted(c: Config, s: State, i: nat, p: string, q: string)
    requires Setting(c, p, q) && Inv(c, s) && RunsAt(s, i, p) && c.jobs >= 2
    requires Everywhere(NotBelow(p, q), s) && forall a | Enabled(c, s, a) :: a == Finish(i)
    ensures HasStart(s.log, q) && Return(p) !in s.log
  {
    hide Total, ForestWeight, TreeWeight, ForestPaths, Complete, Below, Apply;
    var job, w := s.workers[i].job, AtPath(q);
    assert HoldsOf(NotBelow(p, q), s.workers[i]);
    WhileRunning(c, s, i, p, q);
    forall j | 0 <= j < |s.workers| && j != i ensures s.workers[j].Idle? {
      assert !Enabled(c, s, Begin(j)) && !Enabled(c, s, Finish(j));
      assert !Enabled(c, s, Spawn(j)) && !Enabled(c, s, Done(j));
    }
    var other := if i == 0 then 1 else 0;
    assert s.buf == [] by { assert !Enabled(c, s, Receive(other)); }
    forall k | 0 <= k < |s.senders| ensures s.senders[k].trees == [] { assert !Enabled(c, s, Send(k)); }
    NothingToSend(w, s.senders);
    TotalZero(OfJob(w), s.buf);
    WeighsOne(c, p, q);
    assert Conserved(w, c, s);
    if Started(w, s.log) == 0 {
      assert OfWorker(w)(s.workers[i]) > 0 by {
        if OfWorker(w)(s.workers[i]) == 0 { TotalZero(OfWorker(w), s.workers); }
      }
      PathWeight(q, Under(job), job.tree.trees);
      BelowOwn(job.tree, q);
    }
    StartedMeans(s.log, q);
  }

  lemma BelowOwn(t: Tree, q: string)
    requires q in ForestPaths(t.trees)
    ensures Below([t], t.path, q)
  {
  }

  lemma StartedMeans(log: seq<Event>, q: string)
    ensures Started(AtPath(q), log) > 0 ==> HasStart(log, q)
  {
    if !HasStart(log, q) { TotalZero(OfEvent(AtPath(q)), log); }
  }

  /** With two workers, a project that the tree does not put below `p` can overtake it. */
  lemma Overtakes(c: Config, p: string, q: string) returns (schedule: seq<Action>)
    requires Setting(c, p, q) && c.jobs >= 2 && !Below([c.root], p, q)
    ensures Runs(c, Start0(c), schedule)
    ensures var s := After(c, Start0(c), schedule); HasStart(s.log, q) && Return(p) !in s.log
  {
    hide Inv, Setting, Below, RunsAt, HasStart;
    var s0 := Start0(c);
    assert Valid(c) by { SettingValid(c, p, q); }
    InvStart(c);
    assert Started(AtPath(p), s0.log) == 0;
    var first, i := ReachRunning(c, s0, p, q);
    var second := GoOnWithout(c, After(c, s0, first), i, p);
    schedule := first + second;
    RunsConcat(c, s0, first, second);
    NotBelowHereditary(p, q);
    EverywhereAlways(NotBelow(p, q), c, s0, schedule);
    OthersStarted(c, After(c, s0, schedule), i, p, q);
  }

  lemma SettingValid(c: Config, p: string, q: string)
    requires Setting(c, p, q)
    ensures Valid(c)
  {
  }

  // -------------------------------------------- one worker: first sent, first done

  /** The project at `x` is in the forest. */
  ghost predicate In(x: string, ts: seq<Tree>) {
    ForestWeight(AtPath(x), None, ts) > 0
  }

  ghost predicate Heads(x: string, t: Tree) {
    t.project.Some? && t.path == x
  }

  /** Below a member that has `p` in its subtree, or after it, comes all that is below `p`. */
  ghost predicate Tidy(p: string, q: string, ts: seq<Tree>)
    decreases ts
  {
    ts != [] ==>
      && (In(p, ts[0].trees) && In(q, ts) ==> In(q, ts[0].trees))
      && (In(p, ts[1..]) ==> !Heads(q, ts[0]) && !In(q, ts[0].trees))
      && Tidy(p, q, ts[0].trees) && Tidy(p, q, ts[1..])
  }

  ghost function IsTidy(p: string, q: string): seq<Tree> -> bool {
    (ts: seq<Tree>) => Tidy(p, q, ts)
  }

  lemma {:induction false} AnyParent(x: string, a: Option<string>, b: Option<string>, ts: seq<Tree>)
    ensures ForestWeight(AtPath(x), a, ts) == ForestWeight(AtPath(x), b, ts)
    decreases ts
  {
    if ts != [] {
      var t := ts[0];
      AnyParent(x, if t.project.Some? then Some(t.path) else a, if t.project.Some? then Some(t.path) else b, t.trees);
      AnyParent(x, a, b, ts[1..]);
    }
  }

  lemma TreeWeighs(x: string, parent: Option<string>, t: Tree)
    ensures TreeWeight(AtPath(x), parent, t) == (if Heads(x, t) then 1 else 0) + ForestWeight(AtPath(x), None, t.trees)
  {
    AnyParent(x, if t.project.Some? then Some(t.path) else parent, None, t.trees);
  }

  lemma InUnfold(x: string, ts: seq<Tree>)
    requires ts != []
    ensures In(x, ts) <==> Heads(x, ts[0]) || In(x, ts[0].trees) || In(x, ts[1..])
    ensures In(x, [ts[0]]) <==> Heads(x, ts[0]) || In(x, ts[0].trees)
  {
    var one := [ts[0]];
    TreeWeighs(x, None, ts[0]);
    NothingIn(x, one[1..]);
    assert ForestWeight(AtPath(x), None, one)
        == TreeWeight(AtPath(x), None, ts[0]) + ForestWeight(AtPath(x), None, one[1..]);
  }

  lemma TidyHereditary(p: string, q: string)
    ensures Hereditary(IsTidy(p, q))
  {
    hide In;
    forall ts: seq<Tree> | ts != [] && Tidy(p, q, ts) ensures Tidy(p, q, [ts[0]]) && Tidy(p, q, ts[1..]) {
      NothingIn(p, [ts[0]][1..]);
      InUnfold(q, ts);
    }
    forall t: Tree | Tidy(p, q, [t]) ensures Tidy(p, q, t.trees) {
      assert [t][0] == t;
    }
  }

  lemma NothingIn(x: string, ts: seq<Tree>)
    requires ts == []
    ensures !In(x, ts)
  {
  }

  /** A tree with `p`, from which `q` cannot come out before `p`. */
  ghost predicate Ahead(p: string, q: string, t: Tree) {
    Heads(p, t) || (In(p, t.trees) && In(q, t.trees))
  }

  ghost predicate AtWorker(p: string, q: string, w: Worker) {
    match w
    case Got(j) => Ahead(p, q, j.tree)
    case Running(j) => Ahead(p, q, j.tree)
    case Synced(j) => In(p, j.tree.trees) && In(q, j.tree.trees)
    case _ => false
  }

  /** Where `p` still is, with `q` behind it. */
  ghost predicate Behind(p: string, q: string, s: State)
    requires |s.workers| == 1
  {
    || s.main.Sending?
    || AtWorker(p, q, s.workers[0])
    || (s.buf != [] && Ahead(p, q, s.buf[0].tree)
        && (Heads(p, s.buf[0].tree) ==> OfWorker(AtPath(q))(s.workers[0]) == 0))
    || exists k :: 0 <= k < |s.senders| && In(p, s.senders[k].trees) && In(q, s.senders[k].trees)
  }

  /** With one worker: the buffer holds one tree, and `q` waits until `p` has returned. */
  ghost predicate Waits(p: string, q: string, s: State) {
    && |s.workers| == 1 && |s.buf| <= 1
    && (Return(p) in s.log || (Started(AtPath(q), s.log) == 0 && Behind(p, q, s)))
  }

  /** What is on its way weighs at most one. */
  lemma OnePlace(c: Config, p: string, q: string, s: State)
    requires Setting(c, p, q) && Inv(c, s) && |s.workers| == 1
    ensures var w := AtPath(q);
      && (s.main.Sending? ==> OfWorker(w)(s.workers[0]) == 0)
      && (s.buf != [] ==> OfJob(w)(s.buf[0]) + OfWorker(w)(s.workers[0]) <= 1)
      && (forall k | 0 <= k < |s.senders| :: OfSender(w)(s.senders[k]) + OfWorker(w)(s.workers[0]) <= 1)
      && OfWorker(w)(s.workers[0]) <= 1
  {
    hide Total, ForestWeight, TreeWeight, ForestPaths, Complete;
    var w := AtPath(q);
    WeighsOne(c, p, q);
    assert Conserved(w, c, s);
    TotalHas(OfWorker(w), s.workers, 0);
    if s.buf != [] { TotalHas(OfJob(w), s.buf, 0); }
    forall k | 0 <= k < |s.senders| ensures OfSender(w)(s.senders[k]) <= Total(OfSender(w), s.senders) {
      TotalHas(OfSender(w), s.senders, k);
    }
  }

  /** While `p` is ahead, the worker does not begin `q`. */
  lemma NotYet(c: Config, p: string, q: string, s: State)
    requires Setting(c, p, q) && Inv(c, s) && Waits(p, q, s) && Return(p) !in s.log && s.workers[0].Got?
    ensures !Heads(q, s.workers[0].job.tree)
  {
    hide Total, ForestWeight, TreeWeight, ForestPaths, Complete, Inv;
    var t, parent := s.workers[0].job.tree, s.workers[0].job.parent;
    OnePlace(c, p, q, s);
    TreeWeighs(q, parent, t);
    if s.buf != [] { TreeWeighs(q, s.buf[0].parent, s.buf[0].tree); }
    forall k | 0 <= k < |s.senders| ensures In(q, s.senders[k].trees) ==> OfSender(AtPath(q))(s.senders[k]) > 0 {
      AnyParent(q, s.senders[k].parent, None, s.senders[k].trees);
    }
  }

  lemma WaitsStep(c: Config, p: string, q: string, s: State, a: Action)
    requires Setting(c, p, q) && Inv(c, s) && c.jobs == 1
    requires Waits(p, q, s) && Everywhere(IsTidy(p, q), s) && Enabled(c, s, a)
    ensures Waits(p, q, Apply(c, s, a))
  {
    hide Total, ForestWeight, TreeWeight, ForestPaths, Complete, Inv, Tidy, Setting;
    var s' := Apply(c, s, a);
    NeverStuckOver(c, p, q, s, a);
    if Return(p) !in s'.log {
      StartsOnlyAtBegin(c, s, a, q);
      OnePlace(c, p, q, s);
      match a
      case MainSend => RootAhead(c, p, q);
      case MainClose =>
      case Receive(i) =>
      case Begin(i) =>
        NotYet(c, p, q, s);
        var j := s.workers[0].job;
        TreeWeighs(q, j.parent, j.tree);
        AnyParent(q, Under(j), None, j.tree.trees);
      case Finish(i) =>
        var j := s.workers[0].job;
        assert s'.log[|s.log|] == Return(j.tree.path) && s'.workers[0] == Synced(j);
        assert OfWorker(AtPath(q))(s'.workers[0]) == OfWorker(AtPath(q))(s.workers[0]);
      case Spawn(i) =>
        var n := |s.senders|;
        assert s'.senders[n].trees == s.workers[0].job.tree.trees;
        assert forall k | 0 <= k < n :: s'.senders[k] == s.senders[k];
        assert AtWorker(p, q, s.workers[0]) ==> In(p, s'.senders[n].trees) && In(q, s'.senders[n].trees);
      case Done(i) =>
      case Exit(i) =>
      case Send(k) => SendKeeps(c, p, q, s, k);
    }
  }

  lemma NeverStuckOver(c: Config, p: string, q: string, s: State, a: Action)
    requires Setting(c, p, q) && Inv(c, s) && c.jobs == 1 && |s.buf| <= 1 && |s.workers| == 1 && Enabled(c, s, a)
    ensures !Apply(c, s, a).panicked && |Apply(c, s, a).workers| == 1 && |Apply(c, s, a).buf| <= 1
    ensures s.log <= Apply(c, s, a).log
  {
    hide Inv, ForestPaths, Complete;
    NeverPanics(c, s, a);
  }

  lemma RootAhead(c: Config, p: string, q: string)
    requires Setting(c, p, q)
    ensures Ahead(p, q, c.root) && !Heads(p, c.root)
  {
    hide ForestWeight, ForestPaths, Complete;
    WeighsOne(c, p, q);
  }

  lemma SendKeeps(c: Config, p: string, q: string, s: State, k: nat)
    requires Setting(c, p, q) && Inv(c, s) && c.jobs == 1 && Waits(p, q, s) && Return(p) !in s.log
    requires Everywhere(IsTidy(p, q), s) && Enabled(c, s, Send(k)) && !Apply(c, s, Send(k)).panicked
    ensures Behind(p, q, Apply(c, s, Send(k)))
  {
    hide Total, ForestWeight, TreeWeight, ForestPaths, Complete, Inv, Setting;
    var s' := Apply(c, s, Send(k));
    var ts := s.senders[k].trees;
    assert s.buf == [] && s'.buf[0].tree == ts[0] && s'.workers == s.workers;
    OnePlace(c, p, q, s);
    AnyParent(q, s.senders[k].parent, None, ts);
    InUnfold(p, ts);
    InUnfold(q, ts);
    assert IsTidy(p, q)(ts);
    if !s.main.Sending? && !AtWorker(p, q, s.workers[0]) {
      var m :| 0 <= m < |s.senders| && In(p, s.senders[m].trees) && In(q, s.senders[m].trees);
      if m == k {
        if !Heads(p, ts[0]) && !In(p, ts[0].trees) {
          assert s'.senders[k].trees == ts[1..];
        }
      } else {
        assert s'.senders[m] == s.senders[m];
      }
    }
  }

  /** Every start of `q` comes after the return of `p`. */
  ghost predicate InOrder(p: string, q: string, log: seq<Event>) {
    forall k | 0 <= k < |log| && log[k].Start? && log[k].edge.path == q :: Return(p) in log[..k]
  }

  lemma InOrderStep(c: Config, p: string, q: string, s: State, a: Action)
    requires Setting(c, p, q) && Inv(c, s) && c.jobs == 1
    requires Waits(p, q, s) && Enabled(c, s, a) && InOrder(p, q, s.log)
    ensures InOrder(p, q, Apply(c, s, a).log)
  {
    hide Total, ForestWeight, TreeWeight, ForestPaths, Complete, Inv, Setting;
    var s' := Apply(c, s, a);
    NeverStuckOver(c, p, q, s, a);
    if a.Begin? && Return(p) !in s.log { NotYet(c, p, q, s); }
    forall k | 0 <= k < |s'.log| && s'.log[k].Start? && s'.log[k].edge.path == q ensures Return(p) in s'.log[..k] {
      if k < |s.log| {
        assert s'.log[..k] == s.log[..k] && s'.log[k] == s.log[k];
      } else {
        assert s'.log[..k] == s.log;
      }
    }
  }

  lemma {:induction false} OneWorkerInOrder(c: Config, p: string, q: string, s: State, schedule: seq<Action>)
    requires Setting(c, p, q) && c.jobs == 1 && Tidy(p, q, [c.root]) && Runs(c, s, schedule)
    requires Inv(c, s) && Waits(p, q, s) && Everywhere(IsTidy(p, q), s) && InOrder(p, q, s.log)
    ensures InOrder(p, q, After(c, s, schedule).log)
    decreases |schedule|
  {
    hide Inv, Setting, Waits, InOrder, Everywhere, Enabled, Apply, Tidy;
    if schedule != [] {
      var a, next := schedule[0], Apply(c, s, schedule[0]);
      assert Valid(c) by { SettingValid(c, p, q); }
      InvStep(c, s, a);
      WaitsStep(c, p, q, s, a);
      InOrderStep(c, p, q, s, a);
      TidyHereditary(p, q);
      EverywhereStep(IsTidy(p, q), c, s, a);
      OneWorkerInOrder(c, p, q, next, schedule[1..]);
    }
  }

  // ------------------------------------------------------- the scanned forest

  /** With a project at every node, what is in a scanned forest is what was scanned. */
  lemma ScanHas(x: string, ps: seq<string>, pMap: ProjectMap)
    requires NoSlashEnds(ps) && Complete(ScanForest(ps, pMap))
    ensures In(x, ScanForest(ps, pMap)) <==> x in ps
  {
    hide ScanForest, ForestPaths, Complete, ForestWeight;
    InputWalk(ps, pMap);
    PathWeight(x, None, ScanForest(ps, pMap));
    assert x in ps <==> x in multiset(ps);
  }

  /** The scan puts what is below `p` into the group that `p` is in, or after `p`. */
  lemma {:induction false} ScanIsTidy(ps: seq<string>, pMap: ProjectMap, p: string, q: string)
    requires StrictlySorted(ps) && NoSlashEnds(ps) && Complete(ScanForest(ps, pMap)) && p + "/" <= q
    ensures Tidy(p, q, ScanForest(ps, pMap))
    decreases |ps|
  {
    hide ScanForest, GroupEnd, Complete, In, StrictlySorted, Less, TrimSlashes, Lookup;
    if ps == [] {
      assert ScanForest(ps, pMap) == [] by { ScanNothing(ps, pMap); }
    } else {
      var g := GroupEnd(ps);
      var t, rest := ScanUnfold(ps, pMap);
      var ts := ScanForest(ps, pMap);
      CompleteCons(t, rest);
      assert ts[0] == t && ts[1..] == rest;
      Parts(ps, g);
      ScanIsTidy(ps[1..g], pMap, p, q);
      ScanIsTidy(ps[g..], pMap, p, q);
      ScanHas(p, ps[1..g], pMap);
      ScanHas(p, ps[g..], pMap);
      ScanHas(q, ps, pMap);
      ScanHas(q, ps[1..g], pMap);
      InGroup(ps, p, q);
      NotBefore(ps, p, q);
      assert t.path == ps[0] by { TrimFirst(ps); }
    }
  }

  lemma ScanNothing(ps: seq<string>, pMap: ProjectMap)
    requires ps == []
    ensures ScanForest(ps, pMap) == []
  {
  }

  lemma TrimFirst(ps: seq<string>)
    requires NoSlashEnds(ps) && ps != []
    ensures TrimSlashes(ps[0]) == ps[0]
  {
    TrimAllId(ps);
    assert TrimAll(ps)[0] == ps[0];
  }

  lemma Parts(ps: seq<string>, g: nat)
    requires StrictlySorted(ps) && NoSlashEnds(ps) && 1 <= g <= |ps|
    ensures StrictlySorted(ps[1..g]) && NoSlashEnds(ps[1..g]) && StrictlySorted(ps[g..]) && NoSlashEnds(ps[g..])
  {
    hide Less;
    assert forall k | 0 <= k < |ps[1..g]| :: ps[1..g][k] == ps[k + 1];
    assert forall k | 0 <= k < |ps[g..]| :: ps[g..][k] == ps[g + k];
  }

  /** What is below a member of the first group is a member too. */
  lemma InGroup(ps: seq<string>, p: string, q: string)
    requires StrictlySorted(ps) && NoSlashEnds(ps) && ps != [] && p + "/" <= q
    ensures p in ps[1..GroupEnd(ps)] && q in ps ==> q in ps[1..GroupEnd(ps)]
  {
    hide GroupEnd, Less;
    var g := GroupEnd(ps);
    if p in ps[1..g] && q in ps {
      var i :| 0 <= i < |ps[1..g]| && ps[1..g][i] == p;
      var x :| 0 <= x < |ps| && ps[x] == q;
      assert ps[i + 1] == p && p < q;
      GroupHolds(ps, i + 1, x);
      PrefixLess(p, q);
      StrictOrder(ps, i + 1, x);
      assert ps[1..g][x - 1] == q;
    }
  }

  /** Nothing that is below a path comes before it. */
  lemma NotBefore(ps: seq<string>, p: string, q: string)
    requires StrictlySorted(ps) && NoSlashEnds(ps) && ps != [] && p + "/" <= q
    ensures p in ps[GroupEnd(ps)..] ==> q != ps[0] && q !in ps[1..GroupEnd(ps)]
  {
    hide GroupEnd, Less;
    var g := GroupEnd(ps);
    if p in ps[g..] {
      var i :| 0 <= i < |ps[g..]| && ps[g..][i] == p;
      assert ps[g + i] == p;
      forall x | 0 <= x < g ensures ps[x] != q {
        if ps[x] == q {
          PrefixLess(p, q);
          StrictOrder(ps, g + i, x);
        }
      }
      assert forall k | 0 <= k < |ps[1..g]| :: ps[1..g][k] == ps[k + 1];
    }
  }

  // --------------------------------------------------------------- the theorem

  /** In every run of `LocalHalf`, at every moment, `q` has not started unless `p` has returned. */
  ghost predicate OrderKept(projects: seq<Project>, jobs: int, p: string, q: string) {
    forall schedule, s | Reached(projects, jobs, schedule, s) :: InOrder(p, q, s.log)
  }

  lemma SettingOf(projects: seq<Project>, jobs: int, p: Project, q: Project)
    requires CleanDistinct(projects) && p in projects && q in projects && p.path != q.path
    ensures Setting(LocalHalf(projects, jobs), p.path, q.path)
  {
    hide ScanForest, SortStrings, TrimSlashes, IndexByPath, Complete, ForestPaths;
    LocalHalfValid(projects, jobs);
    TreeOfCleanDistinct(projects);
    var ps, sorted := PathsOf(projects), SortStrings(PathsOf(projects));
    MembersOfMultiset(ps, sorted);
    DistinctPermutation(ps, sorted);
    var i :| 0 <= i < |projects| && projects[i] == p;
    var j :| 0 <= j < |projects| && projects[j] == q;
    assert ps[i] in sorted && ps[j] in sorted;
  }

  /** For two workers: a split project can overtake. */
  lemma SplitOvertakes(projects: seq<Project>, jobs: int, p: Project, q: Project)
    requires CleanDistinct(projects) && p in projects && q in projects && p.path + "/" <= q.path
    requires jobs >= 2 && !Unsplit(PathsOf(projects), p.path)
    ensures !OrderKept(projects, jobs, p.path, q.path)
  {
    hide ScanForest, SortStrings, Complete, ForestPaths, Setting, Below, HasStart, Reached, InOrder;
    var c := LocalHalf(projects, jobs);
    SettingOf(projects, jobs, p, q);
    SplitNotBelow(projects, jobs, p, q);
    var schedule := Overtakes(c, p.path, q.path);
    var s := After(c, Start0(c), schedule);
    assert Reached(projects, jobs, schedule, s) by { ReachedBy(projects, jobs, schedule); }
    assert !InOrder(p.path, q.path, s.log) by { OutOfOrder(p.path, q.path, s.log); }
  }

  lemma ReachedBy(projects: seq<Project>, jobs: int, schedule: seq<Action>)
    requires var c := LocalHalf(projects, jobs); Runs(c, Start0(c), schedule)
    ensures var c := LocalHalf(projects, jobs); Reached(projects, jobs, schedule, After(c, Start0(c), schedule))
  {
  }

  lemma OutOfOrder(p: string, q: string, log: seq<Event>)
    requires HasStart(log, q) && Return(p) !in log
    ensures !InOrder(p, q, log)
  {
    var k :| 0 <= k < |log| && log[k].Start? && log[k].edge.path == q;
    assert forall e | e in log[..k] :: e in log;
  }

  lemma SplitNotBelow(projects: seq<Project>, jobs: int, p: Project, q: Project)
    requires CleanDistinct(projects) && p in projects && q in projects && p.path + "/" <= q.path
    requires !Unsplit(PathsOf(projects), p.path)
    ensures !Below([LocalHalf(projects, jobs).root], p.path, q.path)
  {
    hide ScanForest, SortStrings, Complete, ForestPaths, Below;
    TreeOfCleanDistinct(projects);
    var ps, sorted := PathsOf(projects), SortStrings(PathsOf(projects));
    MembersOfMultiset(ps, sorted);
    var i :| 0 <= i < |projects| && projects[i] == p;
    var j :| 0 <= j < |projects| && projects[j] == q;
    assert ps[i] in sorted && ps[j] in sorted;
    var k :| 0 <= k < |ps| && Splits(ps[k], p.path);
    assert ps[k] in sorted;
    NestingIsComplete(sorted, IndexByPath(projects), p.path, q.path);
    var root := TreeOf(projects);
    assert root.path != p.path by { assert !EndsInSlash(ps[i]); }
    BelowUnfold(root, [], p.path, q.path);
    assert [root] + [] == [root];
    assert !Below([], p.path, q.path) by { BelowNothing(p.path, q.path); }
  }

  lemma BelowNothing(p: string, q: string)
    ensures !Below([], p, q)
  {
  }

  /** With one worker nothing overtakes, split or not. */
  lemma OneWorkerKeepsOrder(projects: seq<Project>, jobs: int, p: Project, q: Project)
    requires CleanDistinct(projects) && p in projects && q in projects && p.path + "/" <= q.path && jobs <= 1
    ensures OrderKept(projects, jobs, p.path, q.path)
  {
    hide Inv, Setting, ScanForest, SortStrings, Complete, ForestPaths, Tidy, In, InOrder;
    var c := LocalHalf(projects, jobs);
    SettingOf(projects, jobs, p, q);
    RootIsTidy(projects, jobs, p, q);
    assert Valid(c) by { SettingValid(c, p.path, q.path); }
    InvStart(c);
    assert InOrder(p.path, q.path, []) by { NothingOutOfOrder(p.path, q.path); }
    forall schedule, s | Reached(projects, jobs, schedule, s) ensures InOrder(p.path, q.path, s.log) {
      OneWorkerInOrder(c, p.path, q.path, Start0(c), schedule);
    }
  }

  lemma NothingOutOfOrder(p: string, q: string)
    ensures InOrder(p, q, [])
  {
  }

  lemma RootIsTidy(projects: seq<Project>, jobs: int, p: Project, q: Project)
    requires CleanDistinct(projects) && p.path + "/" <= q.path
    ensures Tidy(p.path, q.path, [LocalHalf(projects, jobs).root])
  {
    hide ScanForest, SortStrings, Complete, ForestPaths, In;
    var root := TreeOf(projects);
    TreeOfCleanDistinct(projects);
    SortedPaths(projects);
    ScanIsTidy(SortStrings(PathsOf(projects)), IndexByPath(projects), p.path, q.path);
    InUnfold(q.path, [root]);
    NothingIn(p.path, [root][1..]);
    NothingIn(q.path, [root][1..]);
    assert [root][1..] == [];
    assert Tidy(p.path, q.path, []) by { TidyNothing(p.path, q.path); }
  }

  lemma TidyNothing(p: string, q: string)
    ensures Tidy(p, q, [])
  {
  }

  lemma SortedPaths(projects: seq<Project>)
    requires CleanDistinct(projects)
    ensures StrictlySorted(SortStrings(PathsOf(projects))) && NoSlashEnds(SortStrings(PathsOf(projects)))
  {
    TreeOfCleanDistinct(projects);
  }

  /** Exactly: a project listed below another never starts before that one has returned, in
      any run, if and only if there is one worker only, or no listed path splits the two. */
  lemma OrderExactly(projects: seq<Project>, jobs: int, p: Project, q: Project)
    requires CleanDistinct(projects) && p in projects && q in projects && p.path + "/" <= q.path
    ensures OrderKept(projects, jobs, p.path, q.path) <==> jobs <= 1 || Unsplit(PathsOf(projects), p.path)
  {
    hide Unsplit, Reached;
    if jobs <= 1 {
      OneWorkerKeepsOrder(projects, jobs, p, q);
    } else if Unsplit(PathsOf(projects), p.path) {
      forall schedule, s | Reached(projects, jobs, schedule, s) ensures InOrder(p.path, q.path, s.log) {
        forall k | 0 <= k < |s.log| && s.log[k].Start? && s.log[k].edge.path == q.path
          ensures Return(p.path) in s.log[..k]
        {
          NestedAfterParent(projects, jobs, schedule, s, p, q, k);
        }
      }
    } else {
      SplitOvertakes(projects, jobs, p, q);
    }
  }
}
