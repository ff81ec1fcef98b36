/** cmd/sync.go, `LocalHalf`: a fixed pool of workers walks the project tree over one
    bounded channel, one sender goroutine per received tree, and a wait counter.
    The goroutines are a step system: an `Action` is one atomic step of one of them. */
module SyncScheduler {
  import opened Text
  import opened LexicalPath
  import opened ProjectTree

  // -------------------------------------------------------- sums over pools

  ghost function Total<T>(f: T -> nat, xs: seq<T>): nat {
    if xs == [] then 0 else f(xs[0]) + Total(f, xs[1..])
  }

  lemma {:induction false} TotalAppend<T>(f: T -> nat, xs: seq<T>, x: T)
    ensures Total(f, xs + [x]) == Total(f, xs) + f(x)
  {
    if xs == [] {
      assert [x][1..] == [];
    } else {
      assert (xs + [x])[1..] == xs[1..] + [x];
      TotalAppend(f, xs[1..], x);
    }
  }

  lemma {:induction false} TotalUpdate<T>(f: T -> nat, xs: seq<T>, i: nat, x: T)
    requires i < |xs|
    ensures Total(f, xs[i := x]) + f(xs[i]) == Total(f, xs) + f(x)
  {
    if i > 0 {
      assert xs[i := x][1..] == xs[1..][i - 1 := x];
      TotalUpdate(f, xs[1..], i - 1, x);
    } else {
      assert xs[i := x][1..] == xs[1..];
    }
  }

  lemma {:induction false} TotalZero<T>(f: T -> nat, xs: seq<T>)
    ensures Total(f, xs) == 0 <==> forall k | 0 <= k < |xs| :: f(xs[k]) == 0
  {
    if xs != [] {
      TotalZero(f, xs[1..]);
      assert forall k | 1 <= k < |xs| :: xs[k] == xs[1..][k - 1];
    }
  }

  lemma TotalFirst<T>(f: T -> nat, xs: seq<T>)
    requires xs != []
    ensures Total(f, xs) == f(xs[0]) + Total(f, xs[1..])
  {
  }

  // ------------------------------------------------------------- the system

  /** A node of the tree and the project in it, with the path of the nearest project above it. */
  datatype Edge = Edge(parent: Option<string>, path: string, project: Project)

  /** A tree on the channel.  The tag is bookkeeping: no step looks at it. */
  datatype Job = Job(parent: Option<string>, tree: Tree)

  /** A sender goroutine and the children it has not sent yet. */
  datatype Sender = Sender(parent: Option<string>, trees: seq<Tree>)

  datatype Worker =
    | Idle                // blocked in `range jobTasks`
    | Got(job: Job)       // received a tree
    | Running(job: Job)   // inside `SyncLocalHalf`
    | Synced(job: Job)    // returned from it, or the tree has no project
    | Spawned(job: Job)   // has started the sender, about to call `wg.Done`
    | Exited              // the channel is closed and drained

  datatype Main = Sending | Waiting | Closed

  /** What an observer sees: `SyncLocalHalf` of a project begins or returns. */
  datatype Event = Start(edge: Edge) | Return(path: string)

  datatype State = State(
    main: Main,
    buf: seq<Job>,
    workers: seq<Worker>,
    senders: seq<Sender>,
    counter: int,
    log: seq<Event>,
    panicked: bool)

  /** `count` is what `wg.Add` was given; `jobs` sizes both the pool and the channel. */
  datatype Config = Config(count: nat, jobs: nat, root: Tree)

  datatype Action =
    | MainSend | MainClose
    | Receive(i: nat) | Begin(i: nat) | Finish(i: nat) | Spawn(i: nat) | Done(i: nat) | Exit(i: nat)
    | Send(k: nat)

  function Start0(c: Config): State {
    State(Sending, [], seq(c.jobs, _ => Idle), [], c.count, [], false)
  }

  predicate Enabled(c: Config, s: State, a: Action) {
    && !s.panicked
    && match a
       case MainSend => s.main.Sending? && |s.buf| < c.jobs
       case MainClose => s.main.Waiting? && s.counter == 0
       case Receive(i) => i < |s.workers| && s.workers[i].Idle? && s.buf != []
       case Begin(i) => i < |s.workers| && s.workers[i].Got?
       case Finish(i) => i < |s.workers| && s.workers[i].Running?
       case Spawn(i) => i < |s.workers| && s.workers[i].Synced?
       case Done(i) => i < |s.workers| && s.workers[i].Spawned?
       case Exit(i) => i < |s.workers| && s.workers[i].Idle? && s.buf == [] && s.main.Closed?
       case Send(k) => k < |s.senders| && s.senders[k].trees != [] && (s.main.Closed? || |s.buf| < c.jobs)
  }

  /** The nearest project at or above a received tree. */
  function Under(j: Job): Option<string> {
    if j.tree.project.Some? then Some(j.tree.path) else j.parent
  }

  function Apply(c: Config, s: State, a: Action): State
    requires Enabled(c, s, a)
  {
    match a
    case MainSend => s.(buf := s.buf + [Job(None, c.root)], main := Waiting)
    case MainClose => s.(main := Closed)
    case Receive(i) => s.(workers := s.workers[i := Got(s.buf[0])], buf := s.buf[1..])
    case Begin(i) =>
      var j := s.workers[i].job;
      if j.tree.project.Some? then
        s.(workers := s.workers[i := Running(j)],
           log := s.log + [Start(Edge(j.parent, j.tree.path, j.tree.project.value))])
      else
        s.(workers := s.workers[i := Synced(j)])
    case Finish(i) =>
      var j := s.workers[i].job;
      s.(workers := s.workers[i := Synced(j)], log := s.log + [Return(j.tree.path)])
    case Spawn(i) =>
      var j := s.workers[i].job;
      s.(workers := s.workers[i := Spawned(j)], senders := s.senders + [Sender(Under(j), j.tree.trees)])
    case Done(i) =>
      var j := s.workers[i].job;
      if j.tree.project.None? then s.(workers := s.workers[i := Idle])
      else if s.counter <= 0 then s.(panicked := true)   // negative WaitGroup counter
      else s.(workers := s.workers[i := Idle], counter := s.counter - 1)
    case Exit(i) => s.(workers := s.workers[i := Exited])
    case Send(k) =>
      if s.main.Closed? then s.(panicked := true)        // send on closed channel
      else
        var from := s.senders[k];
        s.(buf := s.buf + [Job(from.parent, from.trees[0])],
           senders := s.senders[k := from.(trees := from.trees[1..])])
  }

  /** One interleaving: a schedule of enabled steps. */
  ghost predicate Runs(c: Config, s: State, schedule: seq<Action>)
    decreases |schedule|
  {
    schedule == [] || (Enabled(c, s, schedule[0]) && Runs(c, Apply(c, s, schedule[0]), schedule[1..]))
  }

  ghost function After(c: Config, s: State, schedule: seq<Action>): State
    requires Runs(c, s, schedule)
    decreases |schedule|
  {
    if schedule == [] then s else After(c, Apply(c, s, schedule[0]), schedule[1..])
  }

  /** Nothing can move any more. */
  ghost predicate Stuck(c: Config, s: State) {
    forall a :: !Enabled(c, s, a)
  }

  // ------------------------------------------------- what is left of the tree

  /** A weighing of projects.  Conservation holds for each: weighing every project 1
      counts them, weighing one project 1 and all others 0 follows that project. */
  type Weight = Edge -> nat

  ghost function Own(w: Weight, parent: Option<string>, t: Tree): nat {
    if t.project.Some? then w(Edge(parent, t.path, t.project.value)) else 0
  }

  ghost function TreeWeight(w: Weight, parent: Option<string>, t: Tree): nat
    decreases t
  {
    Own(w, parent, t) + ForestWeight(w, if t.project.Some? then Some(t.path) else parent, t.trees)
  }

  ghost function ForestWeight(w: Weight, parent: Option<string>, ts: seq<Tree>): nat
    decreases ts
  {
    if ts == [] then 0 else TreeWeight(w, parent, ts[0]) + ForestWeight(w, parent, ts[1..])
  }

  ghost function All(w: Weight, c: Config): nat {
    TreeWeight(w, None, c.root)
  }

  ghost function OfJob(w: Weight): Job -> nat {
    (j: Job) => TreeWeight(w, j.parent, j.tree)
  }

  ghost function OfSender(w: Weight): Sender -> nat {
    (s: Sender) => ForestWeight(w, s.parent, s.trees)
  }

  /** What a worker still has to start or to pass on. */
  ghost function OfWorker(w: Weight): Worker -> nat {
    (k: Worker) => match k
      case Got(j) => TreeWeight(w, j.parent, j.tree)
      case Running(j) => ForestWeight(w, Under(j), j.tree.trees)
      case Synced(j) => ForestWeight(w, Under(j), j.tree.trees)
      case _ => 0
  }

  /** What a worker has started and not reported done. */
  ghost function OfBusy(w: Weight): Worker -> nat {
    (k: Worker) => match k
      case Running(j) => Own(w, j.parent, j.tree)
      case Synced(j) => Own(w, j.parent, j.tree)
      case Spawned(j) => Own(w, j.parent, j.tree)
      case _ => 0
  }

  ghost function OfEvent(w: Weight): Event -> nat {
    (e: Event) => if e.Start? then w(e.edge) else 0
  }

  /** The projects that no worker has started. */
  ghost function Todo(w: Weight, c: Config, s: State): nat {
    (if s.main.Sending? then All(w, c) else 0)
    + Total(OfJob(w), s.buf) + Total(OfWorker(w), s.workers) + Total(OfSender(w), s.senders)
  }

  ghost function Busy(w: Weight, s: State): nat {
    Total(OfBusy(w), s.workers)
  }

  ghost function Started(w: Weight, log: seq<Event>): nat {
    Total(OfEvent(w), log)
  }

  ghost function One(): Weight {
    (e: Edge) => 1
  }

  /** What `wg.Add` counted beyond the projects that have a node. */
  ghost function Missing(c: Config): int {
    c.count - All(One(), c)
  }

  /** Every project is unstarted or started, once. */
  ghost predicate Conserved(w: Weight, c: Config, s: State) {
    Todo(w, c, s) + Started(w, s.log) == All(w, c)
  }

  /** The counter is the number of projects that are not done, plus the missing ones. */
  ghost predicate Counted(c: Config, s: State) {
    s.counter == Todo(One(), c, s) + Busy(One(), s) + Missing(c)
  }

  lemma WorkerStep(w: Weight, s: State, i: nat, k: Worker)
    requires i < |s.workers|
    ensures var ws := s.workers[i := k];
            && Total(OfWorker(w), ws) + OfWorker(w)(s.workers[i]) == Total(OfWorker(w), s.workers) + OfWorker(w)(k)
            && Total(OfBusy(w), ws) + OfBusy(w)(s.workers[i]) == Total(OfBusy(w), s.workers) + OfBusy(w)(k)
  {
    TotalUpdate(OfWorker(w), s.workers, i, k);
    TotalUpdate(OfBusy(w), s.workers, i, k);
  }

  /** How one step moves weight between what is left, what is busy and the log. */
  lemma StepBalance(w: Weight, c: Config, s: State, a: Action)
    requires Enabled(c, s, a) && !Apply(c, s, a).panicked
    ensures var s' := Apply(c, s, a);
            && Todo(w, c, s') + Started(w, s'.log) == Todo(w, c, s) + Started(w, s.log)
            && Todo(w, c, s') + Busy(w, s') ==
               Todo(w, c, s) + Busy(w, s) - (if a.Done? then OfBusy(w)(s.workers[a.i]) else 0)
  {
    if a.MainSend? || a.MainClose? || a.Send? || a.Receive? {
      ChannelBalance(w, c, s, a);
    } else {
      WorkerBalance(w, c, s, a);
    }
  }

  lemma ChannelBalance(w: Weight, c: Config, s: State, a: Action)
    requires Enabled(c, s, a) && !Apply(c, s, a).panicked
    requires a.MainSend? || a.MainClose? || a.Send? || a.Receive?
    ensures var s' := Apply(c, s, a);
            && Todo(w, c, s') + Started(w, s'.log) == Todo(w, c, s) + Started(w, s.log)
            && Todo(w, c, s') + Busy(w, s') == Todo(w, c, s) + Busy(w, s)
  {
    hide Total, ForestWeight;
    var s' := Apply(c, s, a);
    match a
    case MainSend => TotalAppend(OfJob(w), s.buf, Job(None, c.root));
    case MainClose =>
    case Receive(i) =>
      WorkerStep(w, s, i, Got(s.buf[0]));
      TotalFirst(OfJob(w), s.buf);
    case Send(k) =>
      TotalAppend(OfJob(w), s.buf, s'.buf[|s.buf|]);
      TotalUpdate(OfSender(w), s.senders, k, s'.senders[k]);
      UnfoldForest(w, s.senders[k].parent, s.senders[k].trees);
  }

  lemma WorkerBalance(w: Weight, c: Config, s: State, a: Action)
    requires Enabled(c, s, a) && !Apply(c, s, a).panicked
    requires !a.MainSend? && !a.MainClose? && !a.Send? && !a.Receive?
    ensures var s' := Apply(c, s, a);
            && Todo(w, c, s') + Started(w, s'.log) == Todo(w, c, s) + Started(w, s.log)
            && Todo(w, c, s') + Busy(w, s') ==
               Todo(w, c, s) + Busy(w, s) - (if a.Done? then OfBusy(w)(s.workers[a.i]) else 0)
  {
    hide Total, ForestWeight;
    var s' := Apply(c, s, a);
    match a
    case Begin(i) =>
      WorkerStep(w, s, i, s'.workers[i]);
      if s.workers[i].job.tree.project.Some? { TotalAppend(OfEvent(w), s.log, s'.log[|s.log|]); }
    case Finish(i) =>
      WorkerStep(w, s, i, s'.workers[i]);
      TotalAppend(OfEvent(w), s.log, s'.log[|s.log|]);
    case Spawn(i) =>
      WorkerStep(w, s, i, s'.workers[i]);
      TotalAppend(OfSender(w), s.senders, s'.senders[|s.senders|]);
    case Done(i) => WorkerStep(w, s, i, Idle);
    case Exit(i) => WorkerStep(w, s, i, Exited);
  }

  lemma UnfoldForest(w: Weight, parent: Option<string>, ts: seq<Tree>)
    requires ts != []
    ensures ForestWeight(w, parent, ts) == TreeWeight(w, parent, ts[0]) + ForestWeight(w, parent, ts[1..])
  {
  }

  // -------------------------------------------------------------- invariant

  /** A run starts with a tree whose root alone has no project by design, one `wg.Add` per
      node below it, and at least one worker. */
  ghost predicate Valid(c: Config) {
    c.jobs >= 1 && c.root.project.None? && c.count == |ForestPaths(c.root.trees)|
  }

  ghost predicate Known(log: seq<Event>, parent: Option<string>) {
    parent.Some? ==> Return(parent.value) in log
  }

  /** Every start is preceded by the return of the project above it. */
  ghost predicate Ordered(log: seq<Event>) {
    forall k | 0 <= k < |log| && log[k].Start? :: Known(log[..k], log[k].edge.parent)
  }

  ghost predicate WorkerReady(log: seq<Event>, w: Worker) {
    match w
    case Idle => true
    case Exited => true
    case Synced(j) => Known(log, j.parent) && Known(log, Under(j))
    case _ => Known(log, w.job.parent)
  }

  /** Whatever is on its way has the return of the project above it behind it. */
  ghost predicate Ready(s: State) {
    && (forall k | 0 <= k < |s.buf| :: Known(s.log, s.buf[k].parent))
    && (forall k | 0 <= k < |s.workers| :: WorkerReady(s.log, s.workers[k]))
    && (forall k | 0 <= k < |s.senders| :: Known(s.log, s.senders[k].parent))
  }

  ghost predicate WorkerComplete(w: Worker) {
    w.Idle? || w.Exited? || Complete(w.job.tree.trees)
  }

  ghost predicate PendingComplete(s: State) {
    && (forall k | 0 <= k < |s.buf| :: Complete(s.buf[k].tree.trees))
    && (forall k | 0 <= k < |s.workers| :: WorkerComplete(s.workers[k]))
    && (forall k | 0 <= k < |s.senders| :: Complete(s.senders[k].trees))
  }

  ghost function OfReturn(path: string): Event -> nat {
    (e: Event) => if e == Return(path) then 1 else 0
  }

  ghost function OfRunning(path: string): Worker -> nat {
    (w: Worker) => if w.Running? && w.job.tree.path == path then 1 else 0
  }

  ghost function AtPath(path: string): Weight {
    (e: Edge) => if e.path == path then 1 else 0
  }

  /** A project that has started is running or has returned. */
  ghost predicate Paired(s: State, path: string) {
    Started(AtPath(path), s.log) == Total(OfReturn(path), s.log) + Total(OfRunning(path), s.workers)
  }

  ghost predicate HasStart(log: seq<Event>, path: string) {
    exists k :: 0 <= k < |log| && log[k].Start? && log[k].edge.path == path
  }

  /** What runs has started, and what has returned has started before. */
  ghost predicate Launched(s: State) {
    && (forall k | 0 <= k < |s.workers| && s.workers[k].Running? :: HasStart(s.log, s.workers[k].job.tree.path))
    && (forall k | 0 <= k < |s.log| && s.log[k].Return? :: HasStart(s.log[..k], s.log[k].path))
  }

  ghost predicate Inv(c: Config, s: State) {
    && |s.workers| == c.jobs && !s.panicked
    && (forall w: Weight :: Conserved(w, c, s))
    && Counted(c, s)
    && (s.main.Closed? ==> s.counter == 0)
    && (forall k | 0 <= k < |s.workers| && s.workers[k].Exited? :: s.main.Closed? && s.buf == [])
    && Ready(s) && Ordered(s.log) && Launched(s)
    && (Complete(c.root.trees) ==> PendingComplete(s))
    && (forall path :: Paired(s, path))
  }

  /** A node is counted by `wg.Add` and never by `wg.Done` exactly when it has no project. */
  lemma {:induction false} NodesAndProjects(parent: Option<string>, ts: seq<Tree>)
    ensures ForestWeight(One(), parent, ts) <= |ForestPaths(ts)|
    ensures ForestWeight(One(), parent, ts) == |ForestPaths(ts)| <==> Complete(ts)
    decreases ts
  {
    if ts != [] {
      var t := ts[0];
      NodesAndProjects(if t.project.Some? then Some(t.path) else parent, t.trees);
      NodesAndProjects(parent, ts[1..]);
    }
  }

  lemma MissingMeans(c: Config)
    requires Valid(c)
    ensures Missing(c) >= 0
    ensures Missing(c) == 0 <==> Complete(c.root.trees)
  {
    NodesAndProjects(None, c.root.trees);
  }

  lemma {:induction false} TotalHas<T>(f: T -> nat, xs: seq<T>, i: nat)
    requires i < |xs|
    ensures f(xs[i]) <= Total(f, xs)
  {
    if i > 0 { TotalHas(f, xs[1..], i - 1); }
  }

  /** `wg.Done` never takes the counter below zero and nothing is sent on the closed channel. */
  lemma NeverPanics(c: Config, s: State, a: Action)
    requires Valid(c) && Inv(c, s) && Enabled(c, s, a)
    ensures !Apply(c, s, a).panicked
  {
    hide Total, ForestWeight, TreeWeight;
    MissingMeans(c);
    match a
    case Done(i) => TotalHas(OfBusy(One()), s.workers, i);
    case Send(k) =>
      if s.main.Closed? {
        TotalHas(OfSender(One()), s.senders, k);
        NodesAndProjects(s.senders[k].parent, s.senders[k].trees);
      }
    case _ =>
  }

  lemma InvStart(c: Config)
    requires Valid(c)
    ensures Inv(c, Start0(c))
  {
    var s := Start0(c);
    forall w: Weight ensures Todo(w, c, s) == All(w, c) && Busy(w, s) == 0 {
      TotalZero(OfWorker(w), s.workers);
      TotalZero(OfBusy(w), s.workers);
    }
    forall path ensures Paired(s, path) { TotalZero(OfRunning(path), s.workers); }
  }

  lemma ReadyStep(c: Config, s: State, a: Action)
    requires Ready(s) && Ordered(s.log) && Enabled(c, s, a)
    ensures Ready(Apply(c, s, a)) && Ordered(Apply(c, s, a).log)
  {
    var s' := Apply(c, s, a);
    assert s.log <= s'.log;
    forall p: Option<string> | Known(s.log, p) ensures Known(s'.log, p) {}
    forall k | 0 <= k < |s'.log| && s'.log[k].Start? ensures Known(s'.log[..k], s'.log[k].edge.parent) {
      if k < |s.log| {
        assert s'.log[..k] == s.log[..k];
      } else {
        assert s'.log[..k] == s.log;
      }
    }
  }

  lemma LaunchedStep(c: Config, s: State, a: Action)
    requires Launched(s) && Enabled(c, s, a)
    ensures Launched(Apply(c, s, a))
  {
    var s' := Apply(c, s, a);
    forall path | HasStart(s.log, path) ensures HasStart(s'.log, path) {
      var k :| 0 <= k < |s.log| && s.log[k].Start? && s.log[k].edge.path == path;
      assert s'.log[k] == s.log[k];
    }
    if a.Begin? && |s'.log| > |s.log| {
      assert s'.log[|s.log|].edge.path == s'.workers[a.i].job.tree.path;
    }
    forall k | 0 <= k < |s'.log| && s'.log[k].Return? ensures HasStart(s'.log[..k], s'.log[k].path) {
      if k < |s.log| {
        assert s'.log[..k] == s.log[..k];
      } else {
        assert s'.log[..k] == s.log;
      }
    }
  }

  lemma CompleteStep(c: Config, s: State, a: Action)
    requires Complete(c.root.trees) && PendingComplete(s) && Enabled(c, s, a)
    ensures PendingComplete(Apply(c, s, a))
  {
  }

  lemma PairedStep(c: Config, s: State, a: Action, path: string)
    requires Paired(s, path) && Enabled(c, s, a) && !Apply(c, s, a).panicked
    ensures Paired(Apply(c, s, a), path)
  {
    hide Total;
    var s' := Apply(c, s, a);
    if |s'.log| > |s.log| {
      TotalAppend(OfEvent(AtPath(path)), s.log, s'.log[|s.log|]);
      TotalAppend(OfReturn(path), s.log, s'.log[|s.log|]);
    }
    match a
    case Receive(i) => TotalUpdate(OfRunning(path), s.workers, i, s'.workers[i]);
    case Begin(i) => TotalUpdate(OfRunning(path), s.workers, i, s'.workers[i]);
    case Finish(i) => TotalUpdate(OfRunning(path), s.workers, i, s'.workers[i]);
    case Spawn(i) => TotalUpdate(OfRunning(path), s.workers, i, s'.workers[i]);
    case Done(i) => TotalUpdate(OfRunning(path), s.workers, i, s'.workers[i]);
    case Exit(i) => TotalUpdate(OfRunning(path), s.workers, i, s'.workers[i]);
    case _ =>
  }

  lemma CountedStep(c: Config, s: State, a: Action)
    requires Counted(c, s) && Enabled(c, s, a) && !Apply(c, s, a).panicked
    ensures Counted(c, Apply(c, s, a))
  {
    hide Total, All;
    StepBalance(One(), c, s, a);
  }

  lemma ConservedStep(w: Weight, c: Config, s: State, a: Action)
    requires Conserved(w, c, s) && Enabled(c, s, a) && !Apply(c, s, a).panicked
    ensures Conserved(w, c, Apply(c, s, a))
  {
    hide Apply, Enabled, Todo, Started;
    StepBalance(w, c, s, a);
  }

  lemma MainAndExits(c: Config, s: State, a: Action)
    requires Valid(c) && Inv(c, s) && Enabled(c, s, a)
    ensures var s' := Apply(c, s, a);
      && |s'.workers| == c.jobs
      && (s'.main.Closed? ==> s'.counter == 0)
      && (forall k | 0 <= k < |s'.workers| && s'.workers[k].Exited? :: s'.main.Closed? && s'.buf == [])
  {
    NeverPanics(c, s, a);
    hide Ready, Ordered, Launched, Conserved, Counted, PendingComplete, Paired, Complete, Total;
  }

  /** The invariant survives every step of every goroutine. */
  lemma InvStep(c: Config, s: State, a: Action)
    requires Valid(c) && Inv(c, s) && Enabled(c, s, a)
    ensures Inv(c, Apply(c, s, a))
  {
    hide Ready, Ordered, Launched, Conserved, Counted, PendingComplete, Paired, Complete, Apply, Enabled;
    NeverPanics(c, s, a);
    MainAndExits(c, s, a);
    ReadyStep(c, s, a);
    LaunchedStep(c, s, a);
    CountedStep(c, s, a);
    if Complete(c.root.trees) { CompleteStep(c, s, a); }
    var s' := Apply(c, s, a);
    forall w: Weight ensures Conserved(w, c, s') {
      ConservedStep(w, c, s, a);
    }
    forall path ensures Paired(s', path) {
      PairedStep(c, s, a, path);
    }
  }

  lemma {:induction false} InvAlways(c: Config, s: State, schedule: seq<Action>)
    requires Valid(c) && Inv(c, s) && Runs(c, s, schedule)
    ensures Inv(c, After(c, s, schedule))
    decreases |schedule|
  {
    if schedule != [] {
      InvStep(c, s, schedule[0]);
      InvAlways(c, Apply(c, s, schedule[0]), schedule[1..]);
    }
  }

  // --------------------------------------------------------------- progress

  ghost function JobLeft(): Job -> nat {
    (j: Job) => 6 * |TreePaths(j.tree)| - 1
  }

  ghost function SenderLeft(): Sender -> nat {
    (s: Sender) => 6 * |ForestPaths(s.trees)|
  }

  ghost function WorkerLeft(): Worker -> nat {
    (w: Worker) => match w
      case Idle => 1
      case Got(j) => 6 * |TreePaths(j.tree)| - 1
      case Running(j) => 6 * |TreePaths(j.tree)| - 2
      case Synced(j) => 6 * |TreePaths(j.tree)| - 3
      case Spawned(_) => 2
      case Exited => 0
  }

  /** A bound on the steps still to come. */
  ghost function Left(c: Config, s: State): nat {
    (match s.main case Sending => 6 * |TreePaths(c.root)| + 2 case Waiting => 1 case Closed => 0)
    + Total(JobLeft(), s.buf) + Total(WorkerLeft(), s.workers) + Total(SenderLeft(), s.senders)
  }

  lemma LeftStep(c: Config, s: State, a: Action)
    requires Enabled(c, s, a) && !Apply(c, s, a).panicked
    ensures Left(c, Apply(c, s, a)) < Left(c, s)
  {
    hide Total, ForestPaths;
    var s' := Apply(c, s, a);
    match a
    case MainSend => TotalAppend(JobLeft(), s.buf, Job(None, c.root));
    case MainClose =>
    case Receive(i) =>
      TotalUpdate(WorkerLeft(), s.workers, i, s'.workers[i]);
      TotalFirst(JobLeft(), s.buf);
    case Begin(i) => TotalUpdate(WorkerLeft(), s.workers, i, s'.workers[i]);
    case Finish(i) => TotalUpdate(WorkerLeft(), s.workers, i, s'.workers[i]);
    case Spawn(i) =>
      TotalUpdate(WorkerLeft(), s.workers, i, s'.workers[i]);
      TotalAppend(SenderLeft(), s.senders, s'.senders[|s.senders|]);
    case Done(i) => TotalUpdate(WorkerLeft(), s.workers, i, Idle);
    case Exit(i) => TotalUpdate(WorkerLeft(), s.workers, i, Exited);
    case Send(k) =>
      TotalAppend(JobLeft(), s.buf, s'.buf[|s.buf|]);
      TotalUpdate(SenderLeft(), s.senders, k, s'.senders[k]);
      UnfoldPaths(s.senders[k].trees);
  }

  lemma UnfoldPaths(ts: seq<Tree>)
    requires ts != []
    ensures ForestPaths(ts) == TreePaths(ts[0]) + ForestPaths(ts[1..])
  {
  }

  lemma {:induction false} StepsBounded(c: Config, s: State, schedule: seq<Action>)
    requires Valid(c) && Inv(c, s) && Runs(c, s, schedule)
    ensures |schedule| <= Left(c, s)
    decreases |schedule|
  {
    if schedule != [] {
      NeverPanics(c, s, schedule[0]);
      InvStep(c, s, schedule[0]);
      LeftStep(c, s, schedule[0]);
      StepsBounded(c, Apply(c, s, schedule[0]), schedule[1..]);
    }
  }

  lemma {:induction false} TotalConst<T>(f: T -> nat, xs: seq<T>, n: nat)
    requires forall k | 0 <= k < |xs| :: f(xs[k]) == n
    ensures Total(f, xs) == n * |xs|
  {
    if xs != [] {
      assert forall k | 0 <= k < |xs[1..]| :: xs[1..][k] == xs[k + 1];
      TotalConst(f, xs[1..], n);
    }
  }

  /** Termination: no interleaving takes more than six steps per node, plus the root's,
      one exit per worker and two steps of main. */
  lemma RunsAreFinite(c: Config, schedule: seq<Action>)
    requires Valid(c) && Runs(c, Start0(c), schedule)
    ensures |schedule| <= 6 * (c.count + 1) + c.jobs + 2
  {
    hide Inv, Runs, Total;
    InvStart(c);
    TotalConst(WorkerLeft(), Start0(c).workers, 1);
    assert Total(SenderLeft(), []) == 0 && Total(JobLeft(), []) == 0 by { EmptyTotals(); }
    StepsBounded(c, Start0(c), schedule);
  }

  lemma EmptyTotals()
    ensures Total(SenderLeft(), []) == 0 && Total(JobLeft(), []) == 0
  {
  }

  /** Progress: when nothing can move, everything that has a node has been synced.
      If every node has a project, main has closed the channel and all workers have left;
      otherwise main is in `Wait` and never gets past it. */
  lemma StuckMeans(c: Config, s: State)
    requires Valid(c) && Inv(c, s) && Stuck(c, s)
    ensures forall w: Weight :: Todo(w, c, s) == 0
    ensures s.counter == Missing(c)
    ensures forall i | 0 <= i < |s.workers| :: s.workers[i].Idle? || s.workers[i].Exited?
    ensures if Complete(c.root.trees) then s.main.Closed? && forall i | 0 <= i < |s.workers| :: s.workers[i].Exited?
            else s.main.Waiting? && s.counter > 0
  {
    hide Total, TreeWeight, ForestWeight;
    MissingMeans(c);
    forall i | 0 <= i < |s.workers| ensures s.workers[i].Idle? || s.workers[i].Exited? {
      assert !Enabled(c, s, Begin(i)) && !Enabled(c, s, Finish(i));
      assert !Enabled(c, s, Spawn(i)) && !Enabled(c, s, Done(i));
    }
    assert s.buf == [] by { assert !Enabled(c, s, Receive(0)); }
    assert !s.main.Sending? by { assert !Enabled(c, s, MainSend); }
    forall w: Weight ensures Total(OfWorker(w), s.workers) == 0 && Total(OfBusy(w), s.workers) == 0 {
      TotalZero(OfWorker(w), s.workers);
      TotalZero(OfBusy(w), s.workers);
    }
    forall w: Weight ensures Total(OfSender(w), s.senders) == 0 {
      if s.main.Waiting? {
        forall k | 0 <= k < |s.senders| ensures s.senders[k].trees == [] { assert !Enabled(c, s, Send(k)); }
      } else {
        SendersEmpty(c, s);
      }
      NothingToSend(w, s.senders);
    }
    forall w: Weight ensures Total(OfJob(w), s.buf) == 0 { TotalZero(OfJob(w), s.buf); }
    assert s.counter == Missing(c);
    assert s.main.Waiting? ==> s.counter != 0 by { assert !Enabled(c, s, MainClose); }
    forall i | 0 <= i < |s.workers| && s.main.Closed? ensures s.workers[i].Exited? { assert !Enabled(c, s, Exit(i)); }
  }

  lemma NothingToSend(w: Weight, senders: seq<Sender>)
    requires forall k | 0 <= k < |senders| :: senders[k].trees == []
    ensures Total(OfSender(w), senders) == 0
  {
    TotalZero(OfSender(w), senders);
  }

  /** Once the channel is closed, no sender holds an unsent child. */
  lemma SendersEmpty(c: Config, s: State)
    requires Valid(c) && Inv(c, s) && s.main.Closed?
    ensures Complete(c.root.trees)
    ensures forall k | 0 <= k < |s.senders| :: s.senders[k].trees == []
  {
    hide Total, ForestWeight, TreeWeight;
    MissingMeans(c);
    forall k | 0 <= k < |s.senders| ensures s.senders[k].trees == [] {
      TotalHas(OfSender(One()), s.senders, k);
      NodesAndProjects(s.senders[k].parent, s.senders[k].trees);
    }
  }

  // ------------------------------------------------------ what an observer sees

  ghost function Is(e: Edge): Weight {
    (x: Edge) => if x == e then 1 else 0
  }

  /** With a project at every node, a path weighs what the pre-order walk counts. */
  lemma {:induction false} PathWeight(path: string, parent: Option<string>, ts: seq<Tree>)
    requires Complete(ts)
    ensures ForestWeight(AtPath(path), parent, ts) == multiset(ForestPaths(ts))[path]
    decreases ts
  {
    if ts != [] {
      var t := ts[0];
      PathWeight(path, Some(t.path), t.trees);
      PathWeight(path, parent, ts[1..]);
      assert ForestPaths(ts) == [t.path] + ForestPaths(t.trees) + ForestPaths(ts[1..]);
    }
  }

  /** Counts the starts of one project. */
  ghost function IsProject(p: Project): Weight {
    (e: Edge) => if e.project == p then 1 else 0
  }

  lemma OneAtPath(projects: seq<Project>, p: Project, q: Project)
    requires Distinct(PathsOf(projects)) && p in projects && LastAt(projects, q) && q.path == p.path
    ensures q == p
  {
    var i :| 0 <= i < |projects| && projects[i] == p;
    var k :| 0 <= k < |projects| && projects[k] == q;
    assert PathsOf(projects)[i] == PathsOf(projects)[k];
  }

  /** Where each node holds its own project, a project weighs what its path does. */
  lemma {:induction false} ProjectWeight(projects: seq<Project>, p: Project, parent: Option<string>, ts: seq<Tree>)
    requires Distinct(PathsOf(projects)) && p in projects && HoldsOwn(ts, projects)
    ensures ForestWeight(IsProject(p), parent, ts) == ForestWeight(AtPath(p.path), parent, ts)
    decreases ts
  {
    hide LastAt, Listed, Distinct, PathsOf;
    if ts != [] {
      var t := ts[0];
      var here := if t.project.Some? then Some(t.path) else parent;
      ProjectWeight(projects, p, here, t.trees);
      ProjectWeight(projects, p, parent, ts[1..]);
      if t.project.Some? && t.path == p.path { OneAtPath(projects, p, t.project.value); }
    }
  }

  /** An edge of the tree holds the project at its path. */
  lemma {:induction false} EdgeHoldsOwn(e: Edge, projects: seq<Project>, parent: Option<string>, ts: seq<Tree>)
    requires HoldsOwn(ts, projects) && ForestWeight(Is(e), parent, ts) > 0
    ensures e.project.path == e.path && LastAt(projects, e.project)
    decreases ts
  {
    hide LastAt, Listed;
    var t := ts[0];
    var here := if t.project.Some? then Some(t.path) else parent;
    if ForestWeight(Is(e), here, t.trees) > 0 {
      EdgeHoldsOwn(e, projects, here, t.trees);
    } else if ForestWeight(Is(e), parent, ts[1..]) > 0 {
      EdgeHoldsOwn(e, projects, parent, ts[1..]);
    }
  }

  lemma {:induction false} EdgeIsListed(e: Edge, parent: Option<string>, ts: seq<Tree>)
    requires Complete(ts) && ForestWeight(Is(e), parent, ts) > 0
    ensures e.path in ForestPaths(ts)
    ensures e.parent == parent || (e.parent.Some? && Below(ts, e.parent.value, e.path))
    decreases ts
  {
    var t := ts[0];
    if ForestWeight(Is(e), Some(t.path), t.trees) > 0 {
      EdgeIsListed(e, Some(t.path), t.trees);
    } else if ForestWeight(Is(e), parent, ts[1..]) > 0 {
      EdgeIsListed(e, parent, ts[1..]);
    }
  }

  lemma {:induction false} BelowIsDeeper(ts: seq<Tree>, p: string, q: string)
    requires Below(ts, p, q) && Distinct(ForestPaths(ts))
    ensures forall k | 0 <= k < |ts| :: ts[k].path != q
    decreases ts
  {
    var t, rest := ts[0], ts[1..];
    Apart(t, rest);
    if (t.path == p && q in ForestPaths(t.trees)) || Below(t.trees, p, q) {
      if Below(t.trees, p, q) { BelowIsListed(t.trees, p, q); }
      forall k | 0 <= k < |ts| ensures ts[k].path != q {
        if k > 0 { RootsListed(rest, k - 1); }
      }
    } else {
      BelowIsListed(rest, p, q);
      BelowIsDeeper(rest, p, q);
      assert forall k | 1 <= k < |ts| :: ts[k] == rest[k - 1];
    }
  }

  lemma {:induction false} RootsListed(ts: seq<Tree>, k: nat)
    requires k < |ts|
    ensures ts[k].path in ForestPaths(ts)
  {
    if k > 0 { RootsListed(ts[1..], k - 1); }
  }

  /** In a walk without repetitions, a root, its subtree and the rest share no path. */
  lemma Apart(t: Tree, rest: seq<Tree>)
    requires Distinct(TreePaths(t) + ForestPaths(rest))
    ensures Distinct(ForestPaths(t.trees)) && Distinct(ForestPaths(rest))
    ensures t.path !in ForestPaths(t.trees) && t.path !in ForestPaths(rest)
    ensures forall q | q in ForestPaths(t.trees) :: q !in ForestPaths(rest)
  {
    hide ForestPaths;
    DistinctParts(t.path, ForestPaths(t.trees), ForestPaths(rest));
  }

  lemma DistinctParts(x: string, a: seq<string>, b: seq<string>)
    requires Distinct([x] + a + b)
    ensures Distinct(a) && Distinct(b) && x !in a && x !in b
    ensures forall q | q in a :: q !in b
  {
    var all := [x] + a + b;
    forall i, j | 0 <= i < |a| && 0 <= j < |b| ensures a[i] != b[j] && x != a[i] && x != b[j] {
      assert all[0] == x && all[i + 1] == a[i] && all[j + 1 + |a|] == b[j];
    }
    forall i, j | 0 <= i < j < |a| ensures a[i] != a[j] { assert all[i + 1] == a[i] && all[j + 1] == a[j]; }
    forall i, j | 0 <= i < j < |b| ensures b[i] != b[j] {
      assert all[i + 1 + |a|] == b[i] && all[j + 1 + |a|] == b[j];
    }
    forall i | 0 <= i < |a| ensures a[i] != x { assert all[i + 1] == a[i] && all[0] == x; }
    forall i | 0 <= i < |b| ensures b[i] != x { assert all[i + 1 + |a|] == b[i] && all[0] == x; }
  }

  /** The parent of a node is any given ancestor, or lies below it. */
  lemma {:induction false} ParentOrHigher(e: Edge, p: string, parent: Option<string>, ts: seq<Tree>)
    requires Complete(ts) && Distinct(ForestPaths(ts))
    requires ForestWeight(Is(e), parent, ts) > 0 && Below(ts, p, e.path)
    ensures e.parent.Some? && (e.parent.value == p || Below(ts, p, e.parent.value))
    decreases ts
  {
    var t, rest := ts[0], ts[1..];
    Apart(t, rest);
    BelowIsDeeper(ts, p, e.path);
    if ForestWeight(Is(e), Some(t.path), t.trees) > 0 {
      EdgeIsListed(e, Some(t.path), t.trees);
      if Below(rest, p, e.path) { BelowIsListed(rest, p, e.path); }
      if Below(t.trees, p, e.path) {
        ParentOrHigher(e, p, Some(t.path), t.trees);
      } else if e.parent != Some(t.path) {
        BelowIsListed(t.trees, e.parent.value, e.path);
      }
    } else {
      EdgeIsListed(e, parent, rest);
      if Below(t.trees, p, e.path) { BelowIsListed(t.trees, p, e.path); }
      ParentOrHigher(e, p, parent, rest);
    }
  }

  /** The start at `k` of a project below `p` comes after the return of `p`. */
  lemma {:induction false} AncestorsFirst(c: Config, s: State, k: nat, p: string)
    requires Valid(c) && Inv(c, s) && Complete(c.root.trees) && Distinct(ForestPaths(c.root.trees))
    requires k < |s.log| && s.log[k].Start? && Below(c.root.trees, p, s.log[k].edge.path)
    ensures Return(p) in s.log[..k]
    decreases k
  {
    var e := s.log[k].edge;
    assert ForestWeight(Is(e), None, c.root.trees) > 0 by {
      assert Conserved(Is(e), c, s);
      TotalHas(OfEvent(Is(e)), s.log, k);
    }
    ParentOrHigher(e, p, None, c.root.trees);
    var q := e.parent.value;
    assert Return(q) in s.log[..k];
    if q != p {
      var r :| 0 <= r < k && s.log[r] == Return(q);
      assert HasStart(s.log[..r], q);
      var b :| 0 <= b < r && s.log[b].Start? && s.log[b].edge.path == q;
      AncestorsFirst(c, s, b, p);
      assert s.log[..b] <= s.log[..k];
    }
  }

  // ------------------------------------------------------------- `LocalHalf`

  /** What `LocalHalf` sets up for a project list and the `--jobs` option. */
  function LocalHalf(projects: seq<Project>, jobs: int): Config {
    Config(|projects|, if jobs < 1 then 1 else jobs, TreeOf(projects))
  }

  lemma LocalHalfValid(projects: seq<Project>, jobs: int)
    ensures Valid(LocalHalf(projects, jobs))
  {
    TreeWalk(projects);
  }

  /** A state that some interleaving of `LocalHalf` reaches. */
  ghost predicate Reached(projects: seq<Project>, jobs: int, schedule: seq<Action>, s: State) {
    var c := LocalHalf(projects, jobs);
    Runs(c, Start0(c), schedule) && s == After(c, Start0(c), schedule)
  }

  lemma ReachedInv(projects: seq<Project>, jobs: int, schedule: seq<Action>, s: State)
    requires Reached(projects, jobs, schedule, s)
    ensures Valid(LocalHalf(projects, jobs)) && Inv(LocalHalf(projects, jobs), s)
  {
    var c := LocalHalf(projects, jobs);
    LocalHalfValid(projects, jobs);
    InvStart(c);
    InvAlways(c, Start0(c), schedule);
  }

  ghost predicate CleanDistinct(projects: seq<Project>) {
    NoSlashEnds(PathsOf(projects)) && Distinct(PathsOf(projects))
  }

  lemma TreeOfCleanDistinct(projects: seq<Project>)
    requires CleanDistinct(projects)
    ensures var ts := TreeOf(projects).trees;
            && Complete(ts) && Distinct(ForestPaths(ts))
            && ForestPaths(ts) == SortStrings(PathsOf(projects))
            && StrictlySorted(ForestPaths(ts)) && NoSlashEnds(ForestPaths(ts))
  {
    hide ScanForest, SortStrings, TrimSlashes, IndexByPath, Complete, ForestPaths;
    var ps, sorted := PathsOf(projects), SortStrings(PathsOf(projects));
    TreeWalk(projects);
    MembersOfMultiset(ps, sorted);
    forall k | 0 <= k < |sorted| ensures !EndsInSlash(sorted[k]) { assert sorted[k] in ps; }
    TrimAllId(sorted);
    DistinctPermutation(ps, sorted);
    SortSorts(ps);
    forall i, j | 0 <= i < j < |sorted| ensures Less(sorted[i], sorted[j]) {
      assert LessEq(sorted[i], sorted[j]);
      LessTotal(sorted[i], sorted[j]);
    }
    forall p | p in projects ensures Listed(projects, TrimSlashes(p.path)) {
      var i :| 0 <= i < |projects| && projects[i] == p;
      assert !EndsInSlash(ps[i]);
    }
    TreeComplete(projects);
  }

  /** Whatever is started, in any run, is one of the projects, at the node of its own path. */
  lemma OnlyProjectsStart(projects: seq<Project>, jobs: int, schedule: seq<Action>, s: State, k: nat)
    requires Reached(projects, jobs, schedule, s) && k < |s.log| && s.log[k].Start?
    ensures var e := s.log[k].edge; e.project in projects && e.project.path == e.path
  {
    hide Total, TreeOf, LastAt;
    var c, e := LocalHalf(projects, jobs), s.log[k].edge;
    ReachedInv(projects, jobs, schedule, s);
    NodesHoldTheirProjects(projects);
    assert ForestWeight(Is(e), None, c.root.trees) > 0 by {
      assert Conserved(Is(e), c, s);
      TotalHas(OfEvent(Is(e)), s.log, k);
    }
    EdgeHoldsOwn(e, projects, None, c.root.trees);
    assert e.project in projects by { LastIsListed(projects, e.project); }
  }

  lemma LastIsListed(projects: seq<Project>, p: Project)
    requires LastAt(projects, p)
    ensures p in projects
  {
  }

  /** Exactly once: when a run of `LocalHalf` can go no further, the channel is closed, the
      workers have left, and every project has been started once and has returned once. */
  lemma EveryProjectOnce(projects: seq<Project>, jobs: int, schedule: seq<Action>, s: State, p: Project)
    requires CleanDistinct(projects) && Reached(projects, jobs, schedule, s)
    requires Stuck(LocalHalf(projects, jobs), s) && p in projects
    ensures s.main.Closed? && s.counter == 0 && !s.panicked
    ensures forall i | 0 <= i < |s.workers| :: s.workers[i].Exited?
    ensures Started(IsProject(p), s.log) == 1
    ensures Started(AtPath(p.path), s.log) == 1 && Total(OfReturn(p.path), s.log) == 1
  {
    hide ScanForest, SortStrings, Complete, ForestPaths, Total, TreeOf, HoldsOwn;
    var c := LocalHalf(projects, jobs);
    ReachedInv(projects, jobs, schedule, s);
    TreeOfCleanDistinct(projects);
    StuckMeans(c, s);
    MissingMeans(c);
    var ps := ForestPaths(c.root.trees);
    assert p.path in ps by {
      var i :| 0 <= i < |projects| && projects[i] == p;
      MembersOfMultiset(PathsOf(projects), ps);
      assert PathsOf(projects)[i] in ps;
    }
    PathWeight(p.path, None, c.root.trees);
    DistinctCount(ps, p.path);
    assert Conserved(AtPath(p.path), c, s) && Paired(s, p.path) && Todo(AtPath(p.path), c, s) == 0;
    TotalZero(OfRunning(p.path), s.workers);
    NodesHoldTheirProjects(projects);
    ProjectWeight(projects, p, None, c.root.trees);
    assert Conserved(IsProject(p), c, s) && Todo(IsProject(p), c, s) == 0;
  }

  /** Safety: at every moment of every run, a project listed below another one has not started
      unless the other one has returned, provided no listed path splits the two. */
  lemma NestedAfterParent(projects: seq<Project>, jobs: int, schedule: seq<Action>, s: State, p: Project, q: Project,
                          k: nat)
    requires CleanDistinct(projects) && Reached(projects, jobs, schedule, s)
    requires p in projects && q in projects && p.path + "/" <= q.path
    requires Unsplit(PathsOf(projects), p.path)
    requires k < |s.log| && s.log[k].Start? && s.log[k].edge.path == q.path
    ensures Return(p.path) in s.log[..k]
  {
    hide ScanForest, SortStrings, Complete, ForestPaths;
    var c := LocalHalf(projects, jobs);
    ReachedInv(projects, jobs, schedule, s);
    TreeOfCleanDistinct(projects);
    var ps, sorted := PathsOf(projects), SortStrings(PathsOf(projects));
    MembersOfMultiset(ps, sorted);
    var i :| 0 <= i < |projects| && projects[i] == p;
    var j :| 0 <= j < |projects| && projects[j] == q;
    assert ps[i] in sorted && ps[j] in sorted;
    forall m | 0 <= m < |sorted| ensures !Splits(sorted[m], p.path) { assert sorted[m] in ps; }
    NestingIsComplete(sorted, IndexByPath(projects), p.path, q.path);
    AncestorsFirst(c, s, k, p.path);
  }

  /** A run of `LocalHalf` reaches `close` exactly when no project path ends in '/' without a
      project at the trimmed path; otherwise main never gets past `wg.Wait`. */
  lemma ClosesExactlyWhen(projects: seq<Project>, jobs: int, schedule: seq<Action>, s: State)
    requires Reached(projects, jobs, schedule, s) && Stuck(LocalHalf(projects, jobs), s)
    ensures s.main.Closed? <==> forall p | p in projects :: Listed(projects, TrimSlashes(p.path))
    ensures !s.main.Closed? ==> s.main.Waiting? && s.counter > 0
    ensures |schedule| <= 6 * (|projects| + 1) + LocalHalf(projects, jobs).jobs + 2
  {
    hide ScanForest, SortStrings, TrimSlashes, IndexByPath, Complete, ForestPaths, Total, TreeOf;
    var c := LocalHalf(projects, jobs);
    ReachedInv(projects, jobs, schedule, s);
    StuckMeans(c, s);
    TreeComplete(projects);
    RunsAreFinite(c, schedule);
  }

  /** For the paths a manifest can give, which are cleaned: a run of `LocalHalf` reaches
      `close` exactly when no project is at "/". */
  lemma ClosesForClean(projects: seq<Project>, jobs: int, schedule: seq<Action>, s: State)
    requires Reached(projects, jobs, schedule, s) && Stuck(LocalHalf(projects, jobs), s)
    requires forall p | p in projects :: Clean(p.path) == p.path
    ensures s.main.Closed? <==> forall p | p in projects :: p.path != "/"
    ensures !s.main.Closed? ==> s.main.Waiting? && s.counter > 0
  {
    hide Reached, Stuck, LocalHalf, Clean;
    ClosesExactlyWhen(projects, jobs, schedule, s);
    forall p | p in projects ensures Listed(projects, TrimSlashes(p.path)) <==> p.path != "/" {
      CleanEndsInSlash(p.path);
      CleanIsReduced(p.path);
      if p.path == "/" {
        assert "/"[..0] == "" && TrimSlashes("/") == "";
        forall q | q in projects ensures q.path != "" { CleanIsReduced(q.path); }
      } else {
        assert !EndsInSlash(p.path) && TrimSlashes(p.path) == p.path;
      }
    }
  }

  /** With a single project, at "/", `LocalHalf` never gets past `wg.Wait`, in any interleaving. */
  lemma SlashNeverCloses(p: Project, jobs: int, schedule: seq<Action>, s: State)
    requires p.path == "/" && Reached([p], jobs, schedule, s) && Stuck(LocalHalf([p], jobs), s)
    ensures !s.main.Closed? && s.main.Waiting? && s.counter > 0
  {
    hide Reached, Stuck, LocalHalf;
    RootIsClean();
    assert [p][0] == p;
    ClosesForClean([p], jobs, schedule, s);
  }

  lemma RootIsClean()
    ensures Clean("/") == "/"
  {
    RenderRoundTrip(true, []);
    assert Render(true, []) == "/";
  }
}
