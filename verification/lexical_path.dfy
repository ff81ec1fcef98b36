/** `filepath.Clean` and `filepath.Join` on slash-separated paths. */
module LexicalPath {
  import opened Text

  predicate Rooted(path: string) {
    path != "" && path[0] == '/'
  }

  /** One path element, applied to the elements kept so far. */
  function Push(rooted: bool, kept: seq<string>, element: string): seq<string> {
    if element == "" || element == "." then kept
    else if element == ".." then
      if kept != [] && kept[|kept| - 1] != ".." then kept[..|kept| - 1]
      else if rooted then kept
      else kept + [".."]
    else kept + [element]
  }

  function Reduce(rooted: bool, kept: seq<string>, elements: seq<string>): seq<string>
    decreases |elements|
  {
    if elements == [] then kept else Reduce(rooted, Push(rooted, kept, elements[0]), elements[1..])
  }

  function Render(rooted: bool, kept: seq<string>): string {
    if rooted then "/" + Join(kept, '/') else if kept == [] then "." else Join(kept, '/')
  }

  function Kept(path: string): seq<string> {
    Reduce(Rooted(path), [], Split(path, '/'))
  }

  function Clean(path: string): string {
    Render(Rooted(path), Kept(path))
  }

  /** `filepath.Join` of two elements. */
  function JoinPath(a: string, b: string): string {
    if a != "" then Clean(a + "/" + b) else if b != "" then Clean(b) else ""
  }

  /** What reduction leaves: named elements, after leading ".." of an unrooted path. */
  predicate Reduced(rooted: bool, kept: seq<string>) {
    && (forall k | 0 <= k < |kept| :: kept[k] != "" && kept[k] != "." && '/' !in kept[k])
    && (forall k | 0 <= k < |kept| && kept[k] == ".." :: !rooted && (k > 0 ==> kept[k - 1] == ".."))
  }

  lemma {:induction false} ReduceReduces(rooted: bool, kept: seq<string>, elements: seq<string>)
    requires Reduced(rooted, kept) && forall k | 0 <= k < |elements| :: '/' !in elements[k]
    ensures Reduced(rooted, Reduce(rooted, kept, elements))
    decreases |elements|
  {
    if elements != [] {
      ReduceReduces(rooted, Push(rooted, kept, elements[0]), elements[1..]);
    }
  }

  lemma {:induction false} ReduceConcat(rooted: bool, kept: seq<string>, a: seq<string>, b: seq<string>)
    ensures Reduce(rooted, kept, a + b) == Reduce(rooted, Reduce(rooted, kept, a), b)
    decreases |a|
  {
    if a == [] {
      assert a + b == b;
    } else {
      assert (a + b)[1..] == a[1..] + b;
      ReduceConcat(rooted, Push(rooted, kept, a[0]), a[1..], b);
    }
  }

  lemma {:induction false} ReduceKeeps(rooted: bool, kept: seq<string>, elements: seq<string>)
    requires Reduced(rooted, kept + elements)
    ensures Reduce(rooted, kept, elements) == kept + elements
    decreases |elements|
  {
    if elements != [] {
      var all, element := kept + elements, elements[0];
      assert all[|kept|] == element;
      assert kept != [] ==> all[|kept| - 1] == kept[|kept| - 1];
      assert (kept + [element]) + elements[1..] == all;
      ReduceKeeps(rooted, kept + [element], elements[1..]);
    }
  }

  /** A reduced path is read back as it was written. */
  lemma {:induction false} RenderRoundTrip(rooted: bool, kept: seq<string>)
    requires Reduced(rooted, kept)
    ensures Rooted(Render(rooted, kept)) == rooted
    ensures Kept(Render(rooted, kept)) == kept
  {
    hide Split, Join, Reduce, Reduced, Rooted, Render;
    ReduceKeeps(rooted, [], kept);
    assert [] + kept == kept;
    if kept == [] {
      NothingKept();
    } else {
      RenderedParts(rooted, kept);
      SkipsEmpty(rooted, kept);
    }
  }

  /** The elements of a rendered path are what was rendered. */
  lemma RenderedParts(rooted: bool, kept: seq<string>)
    requires Reduced(rooted, kept) && kept != []
    ensures Rooted(Render(rooted, kept)) == rooted
    ensures Split(Render(rooted, kept), '/') == if rooted then [""] + kept else kept
  {
    hide Split, Join;
    SplitJoin(kept, '/');
    JoinStarts(kept);
    if rooted {
      SplitConcat("", '/', Join(kept, '/'));
      SplitWhole("", '/');
      assert "" + ['/'] + Join(kept, '/') == Render(rooted, kept);
    }
  }

  /** An empty element makes no difference. */
  lemma SkipsEmpty(rooted: bool, kept: seq<string>)
    ensures Reduce(rooted, [], [""] + kept) == Reduce(rooted, [], kept)
  {
    assert ([""] + kept)[1..] == kept;
  }

  lemma NothingKept()
    ensures Render(true, []) == "/" && Kept("/") == [] && Rooted("/")
    ensures Render(false, []) == "." && Kept(".") == [] && !Rooted(".")
  {
    SplitConcat("", '/', "");
    SplitWhole(".", '/');
    SplitWhole("", '/');
    assert Split("/", '/') == [""] + [""];
    SkipsEmpty(true, [""]);
    assert [""][1..] == [] && ["."][1..] == [];
    assert Reduce(true, [], [""]) == Reduce(true, [], []) == [];
    assert Reduce(false, [], ["."]) == Reduce(false, [], []) == [];
  }

  lemma JoinStarts(kept: seq<string>)
    requires kept != [] && kept[0] != ""
    ensures Join(kept, '/') != "" && Join(kept, '/')[0] == kept[0][0]
  {
  }

  lemma CleanIsReduced(path: string)
    ensures Reduced(Rooted(path), Kept(path))
    ensures Rooted(Clean(path)) == Rooted(path) && Kept(Clean(path)) == Kept(path)
    ensures Clean(path) != ""
  {
    ReduceReduces(Rooted(path), [], Split(path, '/'));
    RenderRoundTrip(Rooted(path), Kept(path));
    if Kept(path) != [] { JoinStarts(Kept(path)); }
  }

  lemma CleanIdempotent(path: string)
    ensures Clean(Clean(path)) == Clean(path)
  {
    CleanIsReduced(path);
  }

  /** Cleaning a directory before or after joining makes no difference. */
  lemma CleanJoin(a: string, b: string)
    requires a != ""
    ensures Clean(Clean(a) + "/" + b) == Clean(a + "/" + b)
    ensures JoinPath(Clean(a), b) == JoinPath(a, b)
  {
    CleanIsReduced(a);
    KeptOfJoin(a, b);
    KeptOfJoin(Clean(a), b);
  }

  lemma KeptOfJoin(a: string, b: string)
    requires a != ""
    ensures Rooted(a + "/" + b) == Rooted(a)
    ensures Kept(a + "/" + b) == Reduce(Rooted(a), Kept(a), Split(b, '/'))
  {
    assert a + "/" + b == a + ['/'] + b;
    SplitConcat(a, '/', b);
    ReduceConcat(Rooted(a), [], Split(a, '/'), Split(b, '/'));
  }

  /** Names of files and directories: no empty one, no dots, no slash. */
  predicate Plain(names: seq<string>) {
    forall k | 0 <= k < |names| :: names[k] != "" && names[k] != "." && names[k] != ".." && '/' !in names[k]
  }

  lemma {:induction false} ReducePlain(rooted: bool, kept: seq<string>, names: seq<string>)
    requires Plain(names)
    ensures Reduce(rooted, kept, names) == kept + names
    decreases names
  {
    if names != [] {
      ReducePlain(rooted, kept + [names[0]], names[1..]);
      assert kept + [names[0]] + names[1..] == kept + names;
    }
  }

  lemma {:induction false} NoDots(rooted: bool, names: seq<string>)
    requires Reduced(rooted, names) && (names != [] ==> names[0] != "..")
    ensures forall k | 0 <= k < |names| :: names[k] != ".."
  {
    if names != [] {
      var n := |names| - 1;
      NoDots(rooted, names[..n]);
      assert n > 0 ==> names[..n][n - 1] == names[n - 1];
    }
  }

  /** What the elements of a path do: a name goes down, ".." back up from it, "." and "" nowhere;
      from the root there is no way up, and from a relative path's start only further up. */
  lemma CleanWalks(path: string, name: string)
    requires path != "" && Plain([name])
    ensures Kept(path + "/" + name) == Kept(path) + [name] && Rooted(path + "/" + name) == Rooted(path)
    ensures Clean(path + "/" + name + "/..") == Clean(path)
    ensures Clean(path + "/.") == Clean(path) && Clean(path + "/") == Clean(path)
    ensures Clean(path) == "/" ==> Clean(path + "/..") == "/"
    ensures !Rooted(path) && (forall k | 0 <= k < |Kept(path)| :: Kept(path)[k] == "..") ==>
              Kept(path + "/..") == Kept(path) + [".."]
  {
    hide Split, Join, Kept, Reduce;
    assert [name][0] == name;
    var down := path + "/" + name;
    WalkOne(path, name);
    WalkOne(down, "..");
    WalkOne(path, "..");
    WalkOne(path, ".");
    WalkOne(path, "");
    assert (Kept(path) + [name])[..|Kept(path)|] == Kept(path);
    assert down + "/" + ".." == path + "/" + name + "/..";
    assert path + "/" + ".." == path + "/.." && path + "/" + "." == path + "/." && path + "/" + "" == path + "/";
    CleanIsReduced(path);
    NothingKept();
  }

  lemma WalkOne(path: string, element: string)
    requires path != "" && '/' !in element
    ensures Kept(path + "/" + element) == Push(Rooted(path), Kept(path), element)
    ensures Rooted(path + "/" + element) == Rooted(path)
  {
    hide Split, Kept;
    KeptOfJoin(path, element);
    SplitWhole(element, '/');
    var kept := Push(Rooted(path), Kept(path), element);
    assert [element][1..] == [] && Reduce(Rooted(path), kept, []) == kept;
  }

  /** A clean path without ".." goes on from where it is joined to. */
  lemma JoinForward(a: string, b: string)
    requires a != "" && Clean(b) == b && ".." !in Kept(b)
    ensures Kept(a + "/" + b) == Kept(a) + Kept(b) && Rooted(a + "/" + b) == Rooted(a)
  {
    hide Split, Kept, Join, Reduce;
    var kept := Kept(b);
    CleanIsReduced(b);
    KeptOfJoin(a, b);
    if kept == [] {
      NothingJoined();
      assert b == if Rooted(b) then "/" else ".";
      assert Kept(a) + [] == Kept(a);
      if Rooted(b) { TwoSlashes(a); } else { WalkOne(a, "."); }
    } else {
      assert Plain(kept);
      RenderedParts(Rooted(b), kept);
      ReducePlain(Rooted(a), Kept(a), kept);
      if Rooted(b) {
        ReduceConcat(Rooted(a), Kept(a), [""], kept);
        assert Reduce(Rooted(a), Kept(a), [""]) == Kept(a) by { ReduceEmpty(Rooted(a), Kept(a)); }
      }
    }
  }

  /** What is joined: an empty first element counts for nothing, an empty second one neither,
      and a clean path without ".." goes below the first. */
  lemma JoinMeans(a: string, b: string)
    ensures JoinPath("", "") == "" && (b != "" ==> JoinPath("", b) == Clean(b))
    ensures a != "" ==> JoinPath(a, "") == Clean(a)
    ensures a != "" && Clean(b) == b && ".." !in Kept(b) ==>
              Kept(JoinPath(a, b)) == Kept(a) + Kept(b) && Rooted(JoinPath(a, b)) == Rooted(a)
  {
    hide Kept, Split;
    if a != "" {
      WalkOne(a, "");
      assert a + "/" + "" == a + "/";
      CleanIsReduced(a + "/" + b);
      if Clean(b) == b && ".." !in Kept(b) { JoinForward(a, b); }
    }
  }

  lemma ReduceEmpty(rooted: bool, kept: seq<string>)
    ensures Reduce(rooted, kept, [""]) == kept
  {
    assert [""][1..] == [] && Reduce(rooted, kept, []) == kept;
  }

  lemma TwoSlashes(a: string)
    requires a != ""
    ensures Kept(a + "/" + "/") == Kept(a)
  {
    hide Split, Kept, Reduce;
    WalkOne(a, "");
    WalkOne(a + "/", "");
    assert a + "/" + "" == a + "/" && a + "/" + "/" + "" == a + "/" + "/";
  }

  lemma {:induction false} JoinSnoc(parts: seq<string>, last: string)
    ensures Join(parts + [last], '/') == if parts == [] then last else Join(parts, '/') + "/" + last
  {
    if |parts| == 0 {
      assert parts + [last] == [last];
    } else {
      assert (parts + [last])[1..] == parts[1..] + [last];
      JoinSnoc(parts[1..], last);
      if |parts| > 1 {
        assert parts[0] + ['/'] + (Join(parts[1..], '/') + "/" + last)
            == parts[0] + ['/'] + Join(parts[1..], '/') + "/" + last;
      }
    }
  }

  lemma TailSuffix(front: string, last: string, suffix: string)
    requires '/' !in suffix && (front == "" || front[|front| - 1] == '/')
    ensures HasSuffix(front + last, suffix) <==> HasSuffix(last, suffix)
  {
    var s := front + last;
    if |suffix| <= |last| {
      assert s[|s| - |suffix|..] == last[|last| - |suffix|..];
    } else if |suffix| <= |s| {
      var k := |front| - 1 - (|s| - |suffix|);
      assert s[|s| - |suffix|..][k] == s[|front| - 1] == '/';
      assert suffix[k] in suffix;
    }
  }

  /** A path ends as its last element ends. */
  lemma SuffixOfLast(rooted: bool, kept: seq<string>, suffix: string)
    requires kept != [] && '/' !in suffix
    ensures HasSuffix(Render(rooted, kept), suffix) <==> HasSuffix(kept[|kept| - 1], suffix)
  {
    hide Join, HasSuffix;
    var n := |kept| - 1;
    var front, last := kept[..n], kept[n];
    assert kept == front + [last];
    JoinSnoc(front, last);
    var before := (if rooted then "/" else "") + (if front == [] then "" else Join(front, '/') + "/");
    assert Render(rooted, kept) == before + last;
    TailSuffix(before, last, suffix);
  }

  lemma {:induction false} JoinEnds(kept: seq<string>)
    requires kept != [] && kept[|kept| - 1] != ""
    ensures var s, last := Join(kept, '/'), kept[|kept| - 1]; s != "" && s[|s| - 1] == last[|last| - 1]
  {
    if |kept| > 1 { JoinEnds(kept[1..]); }
  }

  /** The only cleaned path that ends in '/' is the root. */
  lemma CleanEndsInSlash(path: string)
    ensures Clean(path) != ""
    ensures Clean(path)[|Clean(path)| - 1] == '/' <==> Clean(path) == "/"
  {
    hide Join, Kept;
    CleanIsReduced(path);
    var kept := Kept(path);
    if kept != [] {
      JoinEnds(kept);
      assert Clean(path) != "/" by {
        assert Clean(path) == "/" ==> Rooted(path) && Join(kept, '/') == "";
      }
    } else {
      assert Join(kept, '/') == "" by { NothingJoined(); }
    }
  }

  lemma NothingJoined()
    ensures Join([], '/') == ""
  {
  }
}
