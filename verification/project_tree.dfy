/** project/project.go: grouping the projects of a workspace into a forest in
    one recursive scan over their sorted paths. */
module ProjectTree {
  import opened Text

  datatype Project = Project(name: string, path: string)

  /** The value of a `Tree` node: what the objects denote. */
  datatype Tree = Tree(path: string, project: Option<Project>, trees: seq<Tree>)

  type ProjectMap = map<string, Project>

  function Lookup(pMap: ProjectMap, path: string): Option<Project> {
    if path in pMap then Some(pMap[path]) else None
  }

  /** The pre-order walk of a forest. */
  function ForestPaths(ts: seq<Tree>): seq<string> {
    if ts == [] then [] else TreePaths(ts[0]) + ForestPaths(ts[1..])
  }

  function TreePaths(t: Tree): seq<string> {
    [t.path] + ForestPaths(t.trees)
  }

  // ------------------------------------------------- the scan, as a function

  predicate EndsInSlash(s: string) {
    s != [] && s[|s| - 1] == '/'
  }

  function TrimSlashes(s: string): (r: string)
    ensures !EndsInSlash(r)
    ensures !EndsInSlash(s) ==> r == s
  {
    if EndsInSlash(s) then TrimSlashes(s[..|s| - 1]) else s
  }

  function TrimAll(ps: seq<string>): (r: seq<string>)
    ensures |r| == |ps|
  {
    seq(|ps|, k requires 0 <= k < |ps| => TrimSlashes(ps[k]))
  }

  /** The first index from `i` on whose path does not start with `pre`. */
  function RunEnd(ps: seq<string>, i: nat, pre: string): (j: nat)
    requires i <= |ps|
    ensures i <= j <= |ps|
    ensures forall k | i <= k < j :: pre <= ps[k]
    ensures j < |ps| ==> !(pre <= ps[j])
    decreases |ps| - i
  {
    if i < |ps| && pre <= ps[i] then RunEnd(ps, i + 1, pre) else i
  }

  /** How many paths, from the first one on, the first path takes with it. */
  function GroupEnd(ps: seq<string>): (k: nat)
    requires ps != []
    ensures 1 <= k <= |ps|
  {
    var pre := TrimSlashes(ps[0]) + "/";
    if |ps| > 1 && pre <= TrimSlashes(ps[1]) then RunEnd(ps, 2, pre) else 1
  }

  /** The forest the scan builds, without its loop state: the first path takes
      the run of paths below it, and the rest is scanned on its own. */
  function ScanForest(ps: seq<string>, pMap: ProjectMap): seq<Tree>
    decreases |ps|
  {
    if ps == [] then []
    else
      var path := TrimSlashes(ps[0]);
      var k := GroupEnd(ps);
      [Tree(path, Lookup(pMap, path), ScanForest(ps[1..k], pMap))] + ScanForest(ps[k..], pMap)
  }

  // ------------------------------------------------------------ its meaning

  lemma {:induction false} ForestPathsAppend(a: seq<Tree>, b: seq<Tree>)
    ensures ForestPaths(a + b) == ForestPaths(a) + ForestPaths(b)
  {
    if a == [] {
      assert a + b == b;
    } else {
      var c := a + b;
      assert c[0] == a[0] && c[1..] == a[1..] + b;
      ForestPathsAppend(a[1..], b);
      var x, y, z := TreePaths(a[0]), ForestPaths(a[1..]), ForestPaths(b);
      assert ForestPaths(c) == x + (y + z);
      assert ForestPaths(a) == x + y;
    }
  }

  lemma ForestPathsCons(t: Tree, ts: seq<Tree>)
    ensures ForestPaths([t] + ts) == [t.path] + ForestPaths(t.trees) + ForestPaths(ts)
  {
    assert ([t] + ts)[1..] == ts;
  }

  lemma TrimAllSplit(ps: seq<string>, k: nat)
    requires 1 <= k <= |ps|
    ensures TrimAll(ps) == [TrimSlashes(ps[0])] + TrimAll(ps[1..k]) + TrimAll(ps[k..])
  {
  }

  lemma ScanUnfold(ps: seq<string>, pMap: ProjectMap) returns (t: Tree, rest: seq<Tree>)
    requires ps != []
    ensures t.path == TrimSlashes(ps[0]) && t.trees == ScanForest(ps[1..GroupEnd(ps)], pMap)
    ensures rest == ScanForest(ps[GroupEnd(ps)..], pMap)
    ensures ScanForest(ps, pMap) == [t] + rest
  {
    t := ScanForest(ps, pMap)[0];
    rest := ScanForest(ps[GroupEnd(ps)..], pMap);
  }

  /** No path is lost, invented, repeated or moved: the pre-order walk is the input. */
  lemma {:induction false} PreorderIsInput(ps: seq<string>, pMap: ProjectMap)
    ensures ForestPaths(ScanForest(ps, pMap)) == TrimAll(ps)
    decreases |ps|
  {
    if ps != [] {
      var k := GroupEnd(ps);
      var t, rest := ScanUnfold(ps, pMap);
      PreorderIsInput(ps[1..k], pMap);
      PreorderIsInput(ps[k..], pMap);
      ForestPathsCons(t, rest);
      TrimAllSplit(ps, k);
    }
  }

  ghost predicate NoSlashEnds(ps: seq<string>) {
    forall k | 0 <= k < |ps| :: !EndsInSlash(ps[k])
  }

  lemma TrimAllId(ps: seq<string>)
    requires NoSlashEnds(ps)
    ensures TrimAll(ps) == ps
  {
    forall k | 0 <= k < |ps| ensures TrimSlashes(ps[k]) == ps[k] {}
  }

  /** Every edge goes from a path P to a path that starts with P + "/". */
  predicate Nested(ts: seq<Tree>) {
    ts != [] ==>
      && (forall k | 0 <= k < |ts[0].trees| :: ts[0].path + "/" <= ts[0].trees[k].path)
      && Nested(ts[0].trees)
      && Nested(ts[1..])
  }

  lemma {:induction false} RootsAreInputs(ps: seq<string>, pMap: ProjectMap, k: nat) returns (i: nat)
    requires k < |ScanForest(ps, pMap)|
    ensures i < |ps| && ScanForest(ps, pMap)[k].path == TrimSlashes(ps[i])
    decreases |ps|
  {
    assert ps != [];
    hide ScanForest, TrimSlashes, GroupEnd;
    var t, rest := ScanUnfold(ps, pMap);
    if k == 0 {
      i := 0;
    } else {
      var g := GroupEnd(ps);
      var j := RootsAreInputs(ps[g..], pMap, k - 1);
      i := g + j;
      assert ps[g..][j] == ps[i];
    }
  }

  lemma {:induction false} ScanNests(ps: seq<string>, pMap: ProjectMap)
    requires NoSlashEnds(ps)
    ensures Nested(ScanForest(ps, pMap))
    decreases |ps|
  {
    if ps != [] {
      hide ScanForest, GroupEnd, TrimSlashes;
      var g := GroupEnd(ps);
      ScanNests(ps[1..g], pMap);
      ScanNests(ps[g..], pMap);
      RootsBelow(ps, pMap);
      var t, rest := ScanUnfold(ps, pMap);
      assert ([t] + rest)[1..] == rest;
    }
  }

  /** The roots of the first group lie below the first path. */
  lemma RootsBelow(ps: seq<string>, pMap: ProjectMap)
    requires NoSlashEnds(ps) && ps != []
    ensures forall k | 0 <= k < |ScanForest(ps[1..GroupEnd(ps)], pMap)| ::
              TrimSlashes(ps[0]) + "/" <= ScanForest(ps[1..GroupEnd(ps)], pMap)[k].path
  {
    hide ScanForest;
    var g := GroupEnd(ps);
    forall k | 0 <= k < |ScanForest(ps[1..g], pMap)|
      ensures TrimSlashes(ps[0]) + "/" <= ScanForest(ps[1..g], pMap)[k].path
    {
      var i := RootsAreInputs(ps[1..g], pMap, k);
      assert ps[1..g][i] == ps[i + 1];
    }
  }

  ghost predicate StrictlySorted(ps: seq<string>) {
    forall i, j | 0 <= i < j < |ps| :: Less(ps[i], ps[j])
  }

  /** Some node at path `p`, at any depth, has `q` in the subtree below it. */
  predicate Below(ts: seq<Tree>, p: string, q: string) {
    ts != [] &&
    ((ts[0].path == p && q in ForestPaths(ts[0].trees)) || Below(ts[0].trees, p, q) || Below(ts[1..], p, q))
  }

  /** `q` extends `p` by a byte that sorts before '/', so it sorts between `p` and `p/`. */
  predicate Splits(q: string, p: string) {
    p < q && q[|p|] < '/'
  }

  ghost predicate Unsplit(ps: seq<string>, p: string) {
    forall k | 0 <= k < |ps| :: !Splits(ps[k], p)
  }

  lemma {:induction false} BelowIsListed(ts: seq<Tree>, p: string, q: string)
    requires Below(ts, p, q)
    ensures p in ForestPaths(ts) && q in ForestPaths(ts)
  {
    if ts[0].path == p && q in ForestPaths(ts[0].trees) {
    } else if Below(ts[0].trees, p, q) {
      BelowIsListed(ts[0].trees, p, q);
    } else {
      BelowIsListed(ts[1..], p, q);
    }
  }

  lemma BelowUnfold(t: Tree, ts: seq<Tree>, p: string, q: string)
    ensures Below([t] + ts, p, q) <==>
      (t.path == p && q in ForestPaths(t.trees)) || Below(t.trees, p, q) || Below(ts, p, q)
  {
    assert ([t] + ts)[1..] == ts;
  }

  lemma InputWalk(ps: seq<string>, pMap: ProjectMap)
    requires NoSlashEnds(ps)
    ensures ForestPaths(ScanForest(ps, pMap)) == ps
  {
    PreorderIsInput(ps, pMap);
    TrimAllId(ps);
  }

  lemma StrictOrder(ps: seq<string>, i: nat, j: nat)
    requires StrictlySorted(ps) && i < |ps| && j < |ps|
    ensures Less(ps[i], ps[j]) <==> i < j
    ensures ps[i] == ps[j] <==> i == j
  {
    LessTotal(ps[i], ps[j]);
  }

  lemma StrictIsLessEq(ps: seq<string>, i: nat, j: nat)
    requires StrictlySorted(ps) && i <= j < |ps|
    ensures LessEq(ps[i], ps[j])
  {
    LessTotal(ps[i], ps[j]);
  }

  /** In strictly ascending order, a listed path below the first one lies in the
      first one's group unless some listed path splits the two apart. */
  lemma FirstGroup(ps: seq<string>, x: nat)
    requires StrictlySorted(ps) && NoSlashEnds(ps) && 0 < x < |ps| && ps[0] + "/" <= ps[x]
    ensures x < GroupEnd(ps) <==> Unsplit(ps, ps[0])
    ensures GroupEnd(ps) == 1 || x < GroupEnd(ps)
  {
    var p := ps[0];
    var pre := p + "/";
    assert p <= ps[x];
    StrictIsLessEq(ps, 0, 1);
    StrictIsLessEq(ps, 1, x);
    PrefixInterval(p, p, ps[1], ps[x]);
    StrictOrder(ps, 0, 1);
    var c := ps[1][|p|];
    if c > '/' {
      assert ps[x][|p|] == '/';
      LessAfterPrefix(p, ps[x], ps[1]);
      assert false;
    }
    if c == '/' {
      assert pre <= ps[1];
      GroupReaches(ps, x);
      forall k | 0 <= k < |ps| ensures !Splits(ps[k], p) {
        if k >= 1 && Splits(ps[k], p) {
          LessAfterPrefix(p, ps[k], ps[1]);
          StrictIsLessEq(ps, 1, k);
        }
      }
    } else {
      assert Splits(ps[1], p);
    }
  }

  lemma GroupReaches(ps: seq<string>, x: nat)
    requires StrictlySorted(ps) && NoSlashEnds(ps) && 1 < |ps| && x < |ps|
    requires ps[0] + "/" <= ps[1] && ps[0] + "/" <= ps[x]
    ensures x < GroupEnd(ps)
  {
    var g := GroupEnd(ps);
    if g <= x {
      StrictIsLessEq(ps, 1, g);
      StrictIsLessEq(ps, g, x);
      PrefixInterval(ps[0] + "/", ps[1], ps[g], ps[x]);
    }
  }

  /** Where a descendant can be found: under the first root, or in the rest of the scan. */
  lemma BelowWhere(ps: seq<string>, pMap: ProjectMap, i: nat, x: nat)
    requires StrictlySorted(ps) && NoSlashEnds(ps) && i < |ps| && x < |ps|
    ensures var g := GroupEnd(ps);
            Below(ScanForest(ps, pMap), ps[i], ps[x]) <==>
            if i == 0 then 1 <= x < g
            else if i < g then Below(ScanForest(ps[1..g], pMap), ps[i], ps[x])
            else Below(ScanForest(ps[g..], pMap), ps[i], ps[x])
  {
    var g, p, q := GroupEnd(ps), ps[i], ps[x];
    var t, trees := ScanUnfold(ps, pMap);
    BelowUnfold(t, trees, p, q);
    DistinctHalves(ps, g, i);
    DistinctHalves(ps, g, x);
    NotBelow(ps[1..g], pMap, p, q);
    NotBelow(ps[g..], pMap, p, q);
  }

  lemma NotBelow(ps: seq<string>, pMap: ProjectMap, p: string, q: string)
    requires NoSlashEnds(ps)
    ensures ForestPaths(ScanForest(ps, pMap)) == ps
    ensures p !in ps ==> !Below(ScanForest(ps, pMap), p, q)
  {
    InputWalk(ps, pMap);
    if Below(ScanForest(ps, pMap), p, q) {
      BelowIsListed(ScanForest(ps, pMap), p, q);
    }
  }

  lemma {:induction false} NestingAt(ps: seq<string>, pMap: ProjectMap, i: nat, x: nat)
    requires StrictlySorted(ps) && NoSlashEnds(ps)
    requires i < x < |ps| && ps[i] + "/" <= ps[x]
    ensures Below(ScanForest(ps, pMap), ps[i], ps[x]) <==> Unsplit(ps, ps[i])
    decreases |ps|, 1
  {
    var g := GroupEnd(ps);
    BelowWhere(ps, pMap, i, x);
    if i == 0 {
      FirstGroup(ps, x);
    } else if i < g {
      GroupHolds(ps, i, x);
      NestingInGroup(ps, pMap, i, x);
      UnsplitInGroup(ps, g, i);
    } else {
      NestingInRest(ps, pMap, i, x);
      UnsplitInRest(ps, g, i);
    }
  }

  lemma SuffixSorted(ps: seq<string>, n: nat)
    requires n <= |ps| && StrictlySorted(ps) && NoSlashEnds(ps)
    ensures StrictlySorted(ps[n..]) && NoSlashEnds(ps[n..])
  {
    hide Less;
    assert forall i | 0 <= i < |ps[n..]| :: ps[n..][i] == ps[n + i];
  }

  lemma {:induction false} NestingInRest(ps: seq<string>, pMap: ProjectMap, i: nat, x: nat)
    requires StrictlySorted(ps) && NoSlashEnds(ps)
    requires i < x < |ps| && ps[i] + "/" <= ps[x] && GroupEnd(ps) <= i
    ensures Below(ScanForest(ps[GroupEnd(ps)..], pMap), ps[i], ps[x]) <==> Unsplit(ps[GroupEnd(ps)..], ps[i])
    decreases |ps|, 0
  {
    hide ScanForest, GroupEnd, Below, Unsplit, TrimSlashes;
    var g := GroupEnd(ps);
    var rest := ps[g..];
    SuffixSorted(ps, g);
    assert rest[i - g] == ps[i] && rest[x - g] == ps[x];
    NestingAt(rest, pMap, i - g, x - g);
  }

  lemma {:induction false} NestingInGroup(ps: seq<string>, pMap: ProjectMap, i: nat, x: nat)
    requires StrictlySorted(ps) && NoSlashEnds(ps)
    requires 1 <= i < x < |ps| && ps[i] + "/" <= ps[x] && x < GroupEnd(ps)
    ensures Below(ScanForest(ps[1..GroupEnd(ps)], pMap), ps[i], ps[x]) <==> Unsplit(ps[1..GroupEnd(ps)], ps[i])
    decreases |ps|, 0
  {
    hide ScanForest, GroupEnd, Below, Unsplit, TrimSlashes;
    var first := ps[1..GroupEnd(ps)];
    assert first[i - 1] == ps[i] && first[x - 1] == ps[x];
    NestingAt(first, pMap, i - 1, x - 1);
  }

  /** Whatever lies below a member of the first group lies in that group. */
  lemma GroupHolds(ps: seq<string>, i: nat, x: nat)
    requires StrictlySorted(ps) && NoSlashEnds(ps) && ps != []
    requires 1 <= i < GroupEnd(ps) && x < |ps| && ps[i] <= ps[x]
    ensures x < GroupEnd(ps)
  {
    assert ps[0] + "/" <= ps[1] && ps[0] + "/" <= ps[i];
    GroupReaches(ps, x);
  }

  /** Which listed descendants the scan nests: `q`, listed below a listed `p`, lies in the
      subtree of `p` exactly when no listed path extends `p` by a byte smaller than '/'. */
  lemma NestingIsComplete(ps: seq<string>, pMap: ProjectMap, p: string, q: string)
    requires StrictlySorted(ps) && NoSlashEnds(ps)
    requires p in ps && q in ps && p + "/" <= q
    ensures Below(ScanForest(ps, pMap), p, q) <==> Unsplit(ps, p)
  {
    var i :| 0 <= i < |ps| && ps[i] == p;
    var x :| 0 <= x < |ps| && ps[x] == q;
    PrefixLess(p, q);
    StrictOrder(ps, i, x);
    NestingAt(ps, pMap, i, x);
  }

  /** A list that splits a project from the one below it: '-' comes before '/'. */
  lemma DashSplits(pMap: ProjectMap)
    ensures !Below(ScanForest(["a", "a-b", "a/c"], pMap), "a", "a/c")
  {
    var ps := ["a", "a-b", "a/c"];
    assert StrictlySorted(ps) by { DashSorted(); }
    hide ScanForest, Below, Less;
    assert NoSlashEnds(ps);
    assert "a" == ps[0] && ps[1] == "a-b" && "a/c" == ps[2];
    assert "a" + "/" <= "a/c";
    assert Splits(ps[1], "a");
    NestingIsComplete(ps, pMap, "a", "a/c");
  }

  lemma DashSorted()
    ensures StrictlySorted(["a", "a-b", "a/c"])
  {
    PrefixLess("a", "a-b");
    PrefixLess("a", "a/c");
    LessAfterPrefix("a", "a-b", "a/c");
  }

  lemma DistinctHalves(ps: seq<string>, g: nat, i: nat)
    requires StrictlySorted(ps) && 1 <= g <= |ps| && i < |ps|
    ensures ps[i] in ps[1..g] <==> 1 <= i < g
    ensures ps[i] in ps[g..] <==> g <= i
    ensures ps[i] == ps[0] <==> i == 0
  {
    forall k | 0 <= k < |ps| && ps[k] == ps[i] ensures k == i { StrictOrder(ps, k, i); }
    if 1 <= i < g { assert ps[1..g][i - 1] == ps[i]; }
    if g <= i { assert ps[g..][i - g] == ps[i]; }
  }

  lemma UnsplitInGroup(ps: seq<string>, g: nat, i: nat)
    requires StrictlySorted(ps) && NoSlashEnds(ps) && ps != [] && g == GroupEnd(ps) && 1 <= i < g
    ensures Unsplit(ps, ps[i]) <==> Unsplit(ps[1..g], ps[i])
  {
    var p := ps[i];
    if !Unsplit(ps, p) {
      var k :| 0 <= k < |ps| && Splits(ps[k], p);
      PrefixLess(p, ps[k]);
      StrictOrder(ps, i, k);
      assert ps[0] + "/" <= ps[k];
      GroupReaches(ps, k);
      assert ps[1..g][k - 1] == ps[k];
    }
    if !Unsplit(ps[1..g], p) {
      var k :| 0 <= k < |ps[1..g]| && Splits(ps[1..g][k], p);
      assert ps[1..g][k] == ps[k + 1];
    }
  }

  lemma UnsplitInRest(ps: seq<string>, g: nat, i: nat)
    requires StrictlySorted(ps) && 1 <= g <= i < |ps|
    ensures Unsplit(ps, ps[i]) <==> Unsplit(ps[g..], ps[i])
  {
    var p := ps[i];
    if !Unsplit(ps, p) {
      var k :| 0 <= k < |ps| && Splits(ps[k], p);
      PrefixLess(p, ps[k]);
      StrictOrder(ps, i, k);
      assert ps[g..][k - g] == ps[k];
    }
    if !Unsplit(ps[g..], p) {
      var k :| 0 <= k < |ps[g..]| && Splits(ps[g..][k], p);
      assert ps[g..][k] == ps[k + g];
    }
  }

  // ------------------------------------------------- the scan, over objects

  /** A `*Tree`: its children are appended in place. */
  class Node {
    const path: string
    const project: Option<Project>
    var trees: seq<Node>
    ghost var value: Tree
    ghost var repr: set<Node>

    ghost predicate Valid()
      reads this, repr
      decreases repr
    {
      && this in repr
      && value.path == path && value.project == project && |value.trees| == |trees|
      && (forall k | 0 <= k < |trees| ::
            && trees[k] in repr && trees[k].repr <= repr && this !in trees[k].repr
            && trees[k].Valid() && trees[k].value == value.trees[k])
      && (forall j, k | 0 <= j < k < |trees| :: trees[j].repr !! trees[k].repr)
    }

    constructor (path: string, project: Option<Project>)
      ensures Valid() && repr == {this}
      ensures this.path == path && value == Tree(path, project, [])
    {
      this.path, this.project, this.trees := path, project, [];
      value := Tree(path, project, []);
      repr := {this};
    }

    method Append(child: Node)
      requires Valid() && child.Valid() && repr !! child.repr
      modifies this
      ensures Valid() && repr == old(repr) + child.repr
      ensures trees == old(trees) + [child]
      ensures value == old(value).(trees := old(value.trees) + [child.value])
    {
      trees := trees + [child];
      value := value.(trees := value.trees + [child.value]);
      repr := repr + child.repr;
    }

    /** Bookkeeping after the last child has grown: no real field changes. */
    ghost method ChildChanged(was: Tree)
      requires trees != [] && this in repr && value == was
      requires var last := trees[|trees| - 1];
               && this !in last.repr && last.Valid()
               && value.path == path && value.project == project && |value.trees| == |trees|
               && (forall k | 0 <= k < |trees| - 1 ::
                     && trees[k] in repr && trees[k].repr <= repr && this !in trees[k].repr
                     && trees[k].Valid() && trees[k].value == value.trees[k])
               && (forall j, k | 0 <= j < k < |trees| :: trees[j].repr !! trees[k].repr)
      modifies this`value, this`repr
      ensures Valid() && trees == old(trees)
      ensures repr == old(repr) + trees[|trees| - 1].repr
      ensures value == was.(trees := was.trees[..|trees| - 1] + [trees[|trees| - 1].value])
    {
      var last := trees[|trees| - 1];
      value := value.(trees := value.trees[..|trees| - 1] + [last.value]);
      repr := repr + last.repr;
    }
  }

  /** Trims the trailing slashes of `paths[i]` in place and makes its entry. */
  method NewEntry(paths: array<string>, i: nat, pMap: ProjectMap) returns (entry: Node)
    requires i < paths.Length
    modifies paths
    ensures paths[i] == TrimSlashes(old(paths[i]))
    ensures forall k | 0 <= k < paths.Length && k != i :: paths[k] == old(paths[k])
    ensures fresh(entry) && entry.Valid() && entry.repr == {entry}
    ensures entry.value == Tree(paths[i], Lookup(pMap, paths[i]), [])
  {
    while EndsInSlash(paths[i])
      invariant forall k | 0 <= k < paths.Length && k != i :: paths[k] == old(paths[k])
      invariant TrimSlashes(paths[i]) == TrimSlashes(old(paths[i]))
      decreases |paths[i]|
    {
      paths[i] := paths[i][..|paths[i]| - 1];
    }
    entry := new Node(paths[i], Lookup(pMap, paths[i]));
  }

  /** What the loop of `TreeAppend` still owes: either the entry just appended may yet
      take the paths from `i` on, or the scan starts afresh at `i`. */
  ghost predicate ScanAt(ps: seq<string>, i: nat, entry: Option<Tree>, done: seq<Tree>, pMap: ProjectMap) {
    i <= |ps| &&
    match entry
    case None =>
      && ScanForest(ps, pMap) == done + ScanForest(ps[i..], pMap)
      && (0 < i < |ps| ==> !(TrimSlashes(ps[i - 1]) + "/" <= TrimSlashes(ps[i])))
    case Some(e) =>
      && 0 < i
      && e == Tree(TrimSlashes(ps[i - 1]), Lookup(pMap, TrimSlashes(ps[i - 1])), [])
      && ScanForest(ps, pMap) == done + ScanForest(ps[i - 1..], pMap)
  }

  /** Trimming the first path beforehand changes nothing. */
  lemma ScanForestTrimmed(ps: seq<string>, pMap: ProjectMap)
    requires ps != []
    ensures ScanForest(ps[0 := TrimSlashes(ps[0])], pMap) == ScanForest(ps, pMap)
  {
    var qs := ps[0 := TrimSlashes(ps[0])];
    RunEndSame(ps, qs, 2, TrimSlashes(ps[0]) + "/");
    var g := GroupEnd(ps);
    assert qs[1..g] == ps[1..g] && qs[g..] == ps[g..];
  }

  lemma RunEndSame(ps: seq<string>, qs: seq<string>, i: nat, pre: string)
    requires |ps| == |qs|
    requires forall k | i <= k < |ps| :: ps[k] == qs[k]
    ensures i <= |ps| ==> RunEnd(ps, i, pre) == RunEnd(qs, i, pre)
    decreases |ps| - i
  {
    if i < |ps| { RunEndSame(ps, qs, i + 1, pre); }
  }

  lemma TrimShape(s: string)
    ensures TrimSlashes(s) <= s
    ensures forall k | |TrimSlashes(s)| <= k < |s| :: s[k] == '/'
  {
    if EndsInSlash(s) { TrimShape(s[..|s| - 1]); }
  }

  /** A path below the last member of a group is below the head of the group. */
  lemma StaysInGroup(p: string, last: string, next: string)
    requires !EndsInSlash(p) && p + "/" <= last
    requires TrimSlashes(last) + "/" <= TrimSlashes(next)
    ensures p + "/" <= next
  {
    TrimShape(last);
    TrimShape(next);
    var r := TrimSlashes(last);
    assert p != [] ==> last[|p| - 1] == p[|p| - 1] != '/';
    assert |p| <= |r|;
    assert |r| == |p| ==> r == p;
    assert r + "/" <= next;
  }

  lemma ScanStart(ps: seq<string>, pMap: ProjectMap)
    ensures ScanAt(ps, 0, None, [], pMap)
  {
    assert ps[0..] == ps;
  }

  /** The recursion is entered only while the last entry is that of the previous path. */
  lemma ScanEntry(ps: seq<string>, i: nat, entry: Option<Tree>, done: seq<Tree>, pMap: ProjectMap)
    requires ScanAt(ps, i, entry, done, pMap) && 0 < i < |ps|
    requires TrimSlashes(ps[i - 1]) + "/" <= TrimSlashes(ps[i])
    ensures entry == Some(Tree(TrimSlashes(ps[i - 1]), Lookup(pMap, TrimSlashes(ps[i - 1])), []))
  {
  }

  lemma ScanLeaf(ps: seq<string>, i: nat, entry: Option<Tree>, done: seq<Tree>, pMap: ProjectMap) returns (leaf: Tree)
    requires ScanAt(ps, i, entry, done, pMap) && i < |ps|
    requires entry.Some? ==> !(TrimSlashes(ps[i - 1]) + "/" <= TrimSlashes(ps[i]))
    ensures leaf == Tree(TrimSlashes(ps[i]), Lookup(pMap, TrimSlashes(ps[i])), [])
    ensures ScanAt(ps, i + 1, Some(leaf), if entry.Some? then done + [entry.value] else done, pMap)
  {
    hide TrimSlashes, Lookup, ScanForest;
    leaf := Tree(TrimSlashes(ps[i]), Lookup(pMap, TrimSlashes(ps[i])), []);
    if entry.Some? {
      LoneEntry(ps, i, pMap);
      assert done + ([entry.value] + ScanForest(ps[i..], pMap)) == done + [entry.value] + ScanForest(ps[i..], pMap);
    }
  }

  /** An entry that the next path is not below stays a leaf. */
  lemma LoneEntry(ps: seq<string>, i: nat, pMap: ProjectMap)
    requires 0 < i < |ps| && !(TrimSlashes(ps[i - 1]) + "/" <= TrimSlashes(ps[i]))
    ensures ScanForest(ps[i - 1..], pMap)
         == [Tree(TrimSlashes(ps[i - 1]), Lookup(pMap, TrimSlashes(ps[i - 1])), [])] + ScanForest(ps[i..], pMap)
  {
    hide TrimSlashes, Lookup;
    var rest := ps[i - 1..];
    assert rest[0] == ps[i - 1] && rest[1] == ps[i] && rest[1..] == ps[i..] && rest[1..1] == [];
    assert GroupEnd(rest) == 1;
  }

  lemma ScanGroup(ps: seq<string>, i: nat, j: nat, entry: Tree, done: seq<Tree>, pMap: ProjectMap)
    requires ScanAt(ps, i, Some(entry), done, pMap) && i < j <= |ps|
    requires entry.path + "/" <= TrimSlashes(ps[i])
    requires forall k | i < k < j :: entry.path + "/" <= ps[k]
    requires j < |ps| ==> !(entry.path + "/" <= ps[j])
    ensures ScanAt(ps, j, None, done + [entry.(trees := ScanForest(ps[i..j], pMap))], pMap)
  {
    hide ScanForest;
    var t := entry.(trees := ScanForest(ps[i..j], pMap));
    GroupUnfold(ps, i, j, pMap);
    assert done + ([t] + ScanForest(ps[j..], pMap)) == (done + [t]) + ScanForest(ps[j..], pMap);
    if j < |ps| { AfterGroup(ps, i, j, entry.path); }
  }

  lemma GroupUnfold(ps: seq<string>, i: nat, j: nat, pMap: ProjectMap)
    requires 1 <= i < j <= |ps|
    requires var pre := TrimSlashes(ps[i - 1]) + "/";
             && pre <= TrimSlashes(ps[i])
             && (forall k | i < k < j :: pre <= ps[k])
             && (j < |ps| ==> !(pre <= ps[j]))
    ensures var path := TrimSlashes(ps[i - 1]);
            ScanForest(ps[i - 1..], pMap) ==
            [Tree(path, Lookup(pMap, path), ScanForest(ps[i..j], pMap))] + ScanForest(ps[j..], pMap)
  {
    var rest := ps[i - 1..];
    GroupEndIs(rest, j - i + 1);
    assert rest[1..j - i + 1] == ps[i..j] && rest[j - i + 1..] == ps[j..];
  }

  lemma AfterGroup(ps: seq<string>, i: nat, j: nat, p: string)
    requires i < j < |ps| && !EndsInSlash(p)
    requires p + "/" <= TrimSlashes(ps[i])
    requires forall k | i < k < j :: p + "/" <= ps[k]
    requires !(p + "/" <= ps[j])
    ensures !(TrimSlashes(ps[j - 1]) + "/" <= TrimSlashes(ps[j]))
  {
    TrimShape(ps[i]);
    if TrimSlashes(ps[j - 1]) + "/" <= TrimSlashes(ps[j]) {
      StaysInGroup(p, ps[j - 1], ps[j]);
    }
  }

  lemma GroupEndIs(ps: seq<string>, g: nat)
    requires 1 < g <= |ps|
    requires TrimSlashes(ps[0]) + "/" <= TrimSlashes(ps[1])
    requires forall k | 1 < k < g :: TrimSlashes(ps[0]) + "/" <= ps[k]
    requires g < |ps| ==> !(TrimSlashes(ps[0]) + "/" <= ps[g])
    ensures GroupEnd(ps) == g
  {
  }

  lemma ScanEnd(ps: seq<string>, entry: Option<Tree>, done: seq<Tree>, pMap: ProjectMap)
    requires ScanAt(ps, |ps|, entry, done, pMap)
    ensures ScanForest(ps, pMap) == done + (if entry.Some? then [entry.value] else [])
  {
    if entry.Some? {
      var rest := ps[|ps| - 1..];
      assert rest[1..] == [] && GroupEnd(rest) == 1;
      assert ScanForest(rest, pMap) == [entry.value];
    } else {
      assert ps[|ps|..] == [];
    }
  }

  function AsSeq<T>(o: Option<T>): seq<T> {
    if o.Some? then [o.value] else []
  }

  /** `ScanAt` for the slice `was[lo..hi]`, indexed as the underlying array is. */
  ghost predicate SliceAt(was: seq<string>, lo: nat, hi: nat, i: nat, entry: Option<Tree>, done: seq<Tree>,
                          pMap: ProjectMap) {
    lo <= i <= hi <= |was| && ScanAt(was[lo..hi], i - lo, entry, done, pMap)
  }

  lemma SliceStart(was: seq<string>, lo: nat, hi: nat, pMap: ProjectMap)
    requires lo <= hi <= |was|
    ensures SliceAt(was, lo, hi, lo, None, [], pMap)
  {
    ScanStart(was[lo..hi], pMap);
  }

  lemma SliceLeaf(was: seq<string>, lo: nat, hi: nat, i: nat, entry: Option<Tree>, done: seq<Tree>, pMap: ProjectMap)
    returns (leaf: Tree)
    requires SliceAt(was, lo, hi, i, entry, done, pMap) && lo <= i < hi <= |was|
    requires lo < i ==> !(TrimSlashes(was[i - 1]) + "/" <= TrimSlashes(was[i]))
    ensures leaf == Tree(TrimSlashes(was[i]), Lookup(pMap, TrimSlashes(was[i])), [])
    ensures SliceAt(was, lo, hi, i + 1, Some(leaf), done + AsSeq(entry), pMap)
  {
    leaf := ScanLeaf(was[lo..hi], i - lo, entry, done, pMap);
    assert entry.None? ==> done + AsSeq(entry) == done;
  }

  lemma SliceEntry(was: seq<string>, lo: nat, hi: nat, i: nat, entry: Option<Tree>, done: seq<Tree>, pMap: ProjectMap)
    requires SliceAt(was, lo, hi, i, entry, done, pMap) && lo < i < hi <= |was|
    requires TrimSlashes(was[i - 1]) + "/" <= TrimSlashes(was[i])
    ensures entry == Some(Tree(TrimSlashes(was[i - 1]), Lookup(pMap, TrimSlashes(was[i - 1])), []))
  {
    hide ScanAt, TrimSlashes, Lookup;
    assert was[lo..hi][i - lo - 1] == was[i - 1] && was[lo..hi][i - lo] == was[i];
    ScanEntry(was[lo..hi], i - lo, entry, done, pMap);
  }

  lemma SliceOfSlice(s: seq<string>, lo: nat, hi: nat, i: nat, j: nat)
    requires lo <= i <= j <= hi <= |s|
    ensures s[lo..hi][i - lo..j - lo] == s[i..j]
  {
    var a := s[lo..hi][i - lo..j - lo];
    forall k | 0 <= k < |a| ensures a[k] == s[i..j][k] {
      assert s[lo..hi][i - lo + k] == s[i + k];
    }
  }

  lemma SliceGroup(was: seq<string>, lo: nat, hi: nat, i: nat, j: nat, entry: Option<Tree>, done: seq<Tree>,
                   pMap: ProjectMap)
    requires SliceAt(was, lo, hi, i, entry, done, pMap) && lo < i < j <= hi <= |was|
    requires var pre := TrimSlashes(was[i - 1]) + "/";
             && pre <= TrimSlashes(was[i])
             && (forall k | i < k < j :: pre <= was[k])
             && (j < hi ==> !(pre <= was[j]))
    ensures entry.Some?
    ensures var grown := entry.value.(trees := entry.value.trees + ScanForest(was[i..j], pMap));
            SliceAt(was, lo, hi, j, None, done + [grown], pMap)
    ensures ScanForest(was[i..j][0 := TrimSlashes(was[i])], pMap) == ScanForest(was[i..j], pMap)
  {
    hide ScanForest, TrimSlashes;
    var ps := was[lo..hi];
    SliceEntry(was, lo, hi, i, entry, done, pMap);
    forall k | i - lo < k < j - lo ensures entry.value.path + "/" <= ps[k] {
      assert ps[k] == was[k + lo];
    }
    ScanGroup(ps, i - lo, j - lo, entry.value, done, pMap);
    SliceOfSlice(was, lo, hi, i, j);
    ScanForestTrimmed(was[i..j], pMap);
    var forest := ScanForest(was[i..j], pMap);
    assert entry.value.trees + forest == forest;
  }

  /** The tree appended to so far: `prior`, the finished entries, and the last entry. */
  ghost function Grown(prior: Tree, done: seq<Tree>, entry: Option<Tree>): Tree {
    prior.(trees := prior.trees + (done + AsSeq(entry)))
  }

  lemma GrownStart(prior: Tree)
    ensures Grown(prior, [], None) == prior
  {
  }

  lemma GrownEnd(prior: Tree, done: seq<Tree>, entry: Option<Tree>)
    ensures Grown(prior, done, entry) == prior.(trees := prior.trees + (done + AsSeq(entry)))
  {
  }

  lemma GrownByLeaf(prior: Tree, done: seq<Tree>, entry: Option<Tree>, leaf: Tree)
    ensures var t := Grown(prior, done, entry);
            t.(trees := t.trees + [leaf]) == Grown(prior, done + AsSeq(entry), Some(leaf))
  {
  }

  lemma GrownByGroup(prior: Tree, done: seq<Tree>, entry: Tree, group: Tree)
    ensures var t := Grown(prior, done, Some(entry));
            && t.trees != [] && t.trees[|t.trees| - 1] == entry
            && t.(trees := t.trees[..|t.trees| - 1] + [group]) == Grown(prior, done + [group], None)
  {
  }

  lemma SliceEnd(was: seq<string>, lo: nat, hi: nat, entry: Option<Tree>, done: seq<Tree>, pMap: ProjectMap)
    requires SliceAt(was, lo, hi, hi, entry, done, pMap)
    ensures lo <= hi <= |was| && ScanForest(was[lo..hi], pMap) == done + AsSeq(entry)
  {
    hide ScanAt, ScanForest;
    ScanEnd(was[lo..hi], entry, done, pMap);
  }

  /** The nested part of `TreeAppend`: `paths[i]` lies below `pre`, so it and the run of
      paths after it that do are scanned into `oldEntry`, the last child of `tree`. */
  method Descend(tree: Node, oldEntry: Node, paths: array<string>, i: nat, hi: nat, pre: string, pMap: ProjectMap)
    returns (j: nat)
    requires i < hi <= paths.Length && tree.Valid() && TrimSlashes(paths[i]) == paths[i]
    requires tree.trees != [] && oldEntry == tree.trees[|tree.trees| - 1]
    modifies tree.repr, paths
    ensures tree.Valid() && fresh(tree.repr - old(tree.repr))
    ensures i < j <= hi
    ensures forall k | i < k < j :: pre <= old(paths[k])
    ensures j < hi ==> !(pre <= old(paths[j]))
    ensures oldEntry.value
            == old(oldEntry.value).(trees := old(oldEntry.value.trees) + ScanForest(old(paths[..])[i..j], pMap))
    ensures tree.value == old(tree.value).(trees := old(tree.value.trees)[..|old(tree.trees)| - 1] + [oldEntry.value])
    ensures forall k | 0 <= k < paths.Length ::
              paths[k] == if i <= k < j then TrimSlashes(old(paths[k])) else old(paths[k])
    decreases hi - i, 1
  {
    hide ScanForest, TrimSlashes;
    j := i + 1;
    while j < hi && pre <= paths[j]
      invariant i < j <= hi
      invariant forall k | i < k < j :: pre <= paths[k]
    {
      j := j + 1;
    }
    assert paths[i..j] == paths[..][i..j];
    TreeAppend(oldEntry, paths, i, j, pMap);
    tree.ChildChanged(tree.value);
  }

  /** `treeAppend`: scans `paths[lo..hi]` and appends the forest to `tree`. */
  method TreeAppend(tree: Node, paths: array<string>, lo: nat, hi: nat, pMap: ProjectMap)
    requires lo <= hi <= paths.Length && tree.Valid()
    modifies tree.repr, paths
    ensures tree.Valid() && fresh(tree.repr - old(tree.repr))
    ensures tree.value == old(tree.value).(trees := old(tree.value.trees) + ScanForest(old(paths[lo..hi]), pMap))
    ensures forall k | 0 <= k < paths.Length ::
              paths[k] == if lo <= k < hi then TrimSlashes(old(paths[k])) else old(paths[k])
    decreases hi - lo, 0
  {
    hide ScanForest, TrimSlashes, SliceAt, Grown, TrimAll, AsSeq;
    ghost var was, prior := paths[..], tree.value;
    ghost var entry: Option<Tree>, done: seq<Tree> := None, [];
    var oldEntry: Node? := null;
    var i := lo;
    SliceStart(was, lo, hi, pMap);
    GrownStart(prior);
    while i < hi
      invariant lo <= i <= hi
      invariant tree.Valid() && fresh(tree.repr - old(tree.repr))
      invariant tree.value == Grown(prior, done, entry)
      invariant SliceAt(was, lo, hi, i, entry, done, pMap)
      invariant entry.Some? ==> oldEntry != null && tree.trees != [] && oldEntry == tree.trees[|tree.trees| - 1]
      invariant forall k | lo <= k < i :: paths[k] == TrimSlashes(was[k])
      invariant forall k | 0 <= k < lo || i <= k < paths.Length :: paths[k] == was[k]
    {
      var newEntry := NewEntry(paths, i, pMap);
      if i > lo && paths[i - 1] + "/" <= paths[i] {
        SliceEntry(was, lo, hi, i, entry, done, pMap);
        GrownByGroup(prior, done, entry.value, entry.value);
        ghost var now := paths[..];
        var j := Descend(tree, oldEntry, paths, i, hi, paths[i - 1] + "/", pMap);
        SliceGroup(was, lo, hi, i, j, entry, done, pMap);
        assert now[i..j] == was[i..j][0 := TrimSlashes(was[i])];
        GrownByGroup(prior, done, entry.value, oldEntry.value);
        done, entry := done + [oldEntry.value], None;
        i := j;
        continue;
      }
      ghost var leaf := SliceLeaf(was, lo, hi, i, entry, done, pMap);
      GrownByLeaf(prior, done, entry, leaf);
      done, entry := done + AsSeq(entry), Some(leaf);
      oldEntry := newEntry;
      tree.Append(newEntry);
      i := i + 1;
    }
    SliceEnd(was, lo, hi, entry, done, pMap);
    GrownEnd(prior, done, entry);
  }

  // ------------------------------------------------------------ ProjectsTree

  function PathsOf(projects: seq<Project>): (r: seq<string>)
    ensures |r| == |projects|
  {
    seq(|projects|, k requires 0 <= k < |projects| => projects[k].path)
  }

  /** The map from paths to projects: a later project replaces an earlier one. */
  function IndexByPath(projects: seq<Project>): (m: ProjectMap)
    ensures forall path | path in m :: m[path].path == path
    ensures forall path :: path in m <==> path in PathsOf(projects)
  {
    if projects == [] then map[]
    else
      var rest, last := projects[..|projects| - 1], projects[|projects| - 1];
      assert PathsOf(projects) == PathsOf(rest) + [last.path];
      IndexByPath(rest)[last.path := last]
  }

  /** The tree of a project list: a root without a project over the scanned forest. */
  function TreeOf(projects: seq<Project>): Tree {
    Tree("/", None, ScanForest(SortStrings(PathsOf(projects)), IndexByPath(projects)))
  }

  method ProjectsTree(projects: seq<Project>) returns (root: Node)
    ensures fresh(root.repr) && root.Valid() && root.value == TreeOf(projects)
  {
    hide ScanForest, SortStrings;
    var pMap: ProjectMap := map[];
    var paths: seq<string> := [];
    for i := 0 to |projects|
      invariant pMap == IndexByPath(projects[..i])
      invariant paths == PathsOf(projects[..i])
    {
      assert projects[..i + 1][..i] == projects[..i];
      pMap := pMap[projects[i].path := projects[i]];
      paths := paths + [projects[i].path];
    }
    assert projects[..|projects|] == projects;
    var sorted := SortStrings(paths);
    var slice := new string[|sorted|](k requires 0 <= k < |sorted| => sorted[k]);
    assert slice[0..|sorted|] == sorted;
    root := new Node("/", None);
    TreeAppend(root, slice, 0, slice.Length, pMap);
    assert [] + ScanForest(sorted, pMap) == ScanForest(sorted, pMap);
  }

  /** Every node below has a project: no lookup by path has missed. */
  predicate Complete(ts: seq<Tree>) {
    ts != [] ==> ts[0].project.Some? && Complete(ts[0].trees) && Complete(ts[1..])
  }

  lemma CompleteCons(t: Tree, ts: seq<Tree>)
    ensures Complete([t] + ts) <==> t.project.Some? && Complete(t.trees) && Complete(ts)
  {
    assert ([t] + ts)[1..] == ts;
  }

  ghost predicate AllHit(ps: seq<string>, pMap: ProjectMap) {
    forall k | 0 <= k < |ps| :: TrimSlashes(ps[k]) in pMap
  }

  lemma AllHitSplit(ps: seq<string>, g: nat, pMap: ProjectMap)
    requires 1 <= g <= |ps|
    ensures AllHit(ps, pMap) <==> TrimSlashes(ps[0]) in pMap && AllHit(ps[1..g], pMap) && AllHit(ps[g..], pMap)
  {
    hide TrimSlashes;
    assert forall k | 1 <= k < g :: ps[k] == ps[1..g][k - 1];
    assert forall k | g <= k < |ps| :: ps[k] == ps[g..][k - g];
  }

  lemma {:induction false} ScanComplete(ps: seq<string>, pMap: ProjectMap)
    ensures Complete(ScanForest(ps, pMap)) <==> AllHit(ps, pMap)
    decreases |ps|
  {
    if ps != [] {
      var g := GroupEnd(ps);
      var t, rest := ScanUnfold(ps, pMap);
      ScanComplete(ps[1..g], pMap);
      ScanComplete(ps[g..], pMap);
      hide *;
      CompleteCons(t, rest);
      AllHitSplit(ps, g, pMap);
    }
  }

  ghost predicate Listed(projects: seq<Project>, path: string) {
    exists q | q in projects :: q.path == path
  }

  lemma ListedIsIndexed(projects: seq<Project>, path: string)
    ensures Listed(projects, path) <==> path in IndexByPath(projects)
  {
    if Listed(projects, path) {
      var j :| 0 <= j < |projects| && projects[j].path == path;
      assert PathsOf(projects)[j] == path;
    }
  }

  /** A node misses its project exactly for a listed path that ends in '/' while
      no project lies at the trimmed path. */
  lemma TreeComplete(projects: seq<Project>)
    ensures Complete(TreeOf(projects).trees) <==> forall p | p in projects :: Listed(projects, TrimSlashes(p.path))
  {
    hide ScanForest, SortStrings, TrimSlashes, IndexByPath, Complete;
    var ps, pMap := PathsOf(projects), IndexByPath(projects);
    var sorted := SortStrings(ps);
    ScanComplete(sorted, pMap);
    MembersOfMultiset(ps, sorted);
    forall p ensures Listed(projects, p) <==> p in pMap { ListedIsIndexed(projects, p); }
    if forall p | p in projects :: Listed(projects, TrimSlashes(p.path)) {
      forall k | 0 <= k < |sorted| ensures TrimSlashes(sorted[k]) in pMap {
        assert sorted[k] in ps;
        var i :| 0 <= i < |ps| && ps[i] == sorted[k];
        assert projects[i] in projects;
      }
    }
    if AllHit(sorted, pMap) {
      forall p | p in projects ensures TrimSlashes(p.path) in pMap {
        var i :| 0 <= i < |projects| && projects[i] == p;
        assert ps[i] in sorted;
      }
    }
  }

  /** One of the projects, and no later one has its path. */
  ghost predicate LastAt(projects: seq<Project>, p: Project) {
    exists k | 0 <= k < |projects| :: projects[k] == p && forall j | k < j < |projects| :: projects[j].path != p.path
  }

  /** Every node, at every depth, holds the project at its own path, the last one listed
      there; a node without a project is at a path where none is listed. */
  ghost predicate HoldsOwn(ts: seq<Tree>, projects: seq<Project>) {
    ts != [] ==>
      && (match ts[0].project
          case None => !Listed(projects, ts[0].path)
          case Some(p) => p.path == ts[0].path && LastAt(projects, p))
      && HoldsOwn(ts[0].trees, projects) && HoldsOwn(ts[1..], projects)
  }

  lemma HoldsOwnCons(t: Tree, ts: seq<Tree>, projects: seq<Project>)
    ensures HoldsOwn([t] + ts, projects) <==>
      && (match t.project
          case None => !Listed(projects, t.path)
          case Some(p) => p.path == t.path && LastAt(projects, p))
      && HoldsOwn(t.trees, projects) && HoldsOwn(ts, projects)
  {
    assert ([t] + ts)[1..] == ts;
  }

  lemma LastGrows(rest: seq<Project>, last: Project, p: Project)
    requires LastAt(rest, p) && last.path != p.path
    ensures LastAt(rest + [last], p)
  {
    var all := rest + [last];
    var k :| 0 <= k < |rest| && rest[k] == p && forall j | k < j < |rest| :: rest[j].path != p.path;
    assert all[k] == p;
    forall j | k < j < |all| ensures all[j].path != p.path {
      assert all[j] == if j < |rest| then rest[j] else last;
    }
  }

  lemma LastOfAll(projects: seq<Project>)
    requires projects != []
    ensures LastAt(projects, projects[|projects| - 1])
  {
  }

  lemma {:induction false} IndexIsLast(projects: seq<Project>, path: string)
    ensures path in IndexByPath(projects) ==>
              IndexByPath(projects)[path].path == path && LastAt(projects, IndexByPath(projects)[path])
  {
    hide LastAt, PathsOf;
    if projects != [] {
      var rest, last := projects[..|projects| - 1], projects[|projects| - 1];
      IndexIsLast(rest, path);
      LastOfAll(projects);
      assert projects == rest + [last];
      if last.path != path && path in IndexByPath(rest) { LastGrows(rest, last, IndexByPath(rest)[path]); }
    }
  }

  lemma {:induction false} ScanHoldsOwn(ps: seq<string>, projects: seq<Project>)
    ensures HoldsOwn(ScanForest(ps, IndexByPath(projects)), projects)
    decreases |ps|
  {
    hide IndexByPath, Listed, LastAt, TrimSlashes;
    if ps != [] {
      var pMap, g := IndexByPath(projects), GroupEnd(ps);
      var t, rest := ScanUnfold(ps, pMap);
      ScanHoldsOwn(ps[1..g], projects);
      ScanHoldsOwn(ps[g..], projects);
      ListedIsIndexed(projects, t.path);
      IndexIsLast(projects, t.path);
      HoldsOwnCons(t, rest, projects);
    }
  }

  /** Each node of the tree holds its own project: none is missing that is listed there,
      and none is held at another place. */
  lemma NodesHoldTheirProjects(projects: seq<Project>)
    ensures HoldsOwn(TreeOf(projects).trees, projects)
  {
    ScanHoldsOwn(SortStrings(PathsOf(projects)), projects);
  }

  /** The tree walks through every project's trimmed path, in ascending order of the paths. */
  lemma TreeWalk(projects: seq<Project>)
    ensures ForestPaths(TreeOf(projects).trees) == TrimAll(SortStrings(PathsOf(projects)))
  {
    PreorderIsInput(SortStrings(PathsOf(projects)), IndexByPath(projects));
  }
}
