/** manifest/manifest.go: loading a manifest with its includes, merging the result, and
    visiting its nested projects (`ProjectHandle`, used by workspace's `freezeProject`). */
module ManifestLoad {
  import opened Text
  import opened LexicalPath
  import opened Manifests

  const MAX_RECURSIVE_DEPTH := 10

  // --------------------------------------------------------------- includes

  /** The readable, well-formed manifest files, and where the include names found in a
      file lead (`path.AbsJoin` of the file's directory and the name). */
  datatype World = World(files: map<string, Manifest>, targets: map<(string, string), string>)

  datatype Loaded = Loaded(file: string, manifest: Manifest)

  /** A file that loads and passes fixup. */
  function Open(w: World, file: string): Result<Manifest> {
    if file !in w.files then Err(Unreadable) else Fixup(w.files[file])
  }

  /** `parseXML`, as a function of the file and the depth. */
  function Parse(w: World, file: string, depth: nat): Result<seq<Loaded>>
    decreases MAX_RECURSIVE_DEPTH + 2 - depth, 1, 0
  {
    match Open(w, file)
    case Err(e) => Err(e)
    case Ok(m) =>
      match ParseIncludes(w, file, m.includes, depth)
      case Err(e) => Err(e)
      case Ok(rest) => Ok([Loaded(file, m)] + rest)
  }

  function ParseIncludes(w: World, file: string, names: seq<string>, depth: nat): Result<seq<Loaded>>
    decreases MAX_RECURSIVE_DEPTH + 2 - depth, 0, |names|
  {
    if names == [] then Ok([])
    else if (file, names[0]) !in w.targets then Err(Unresolved)
    else if depth > MAX_RECURSIVE_DEPTH then Err(TooDeep)
    else
      match Parse(w, w.targets[(file, names[0])], depth + 1)
      case Err(e) => Err(e)
      case Ok(sub) =>
        match ParseIncludes(w, file, names[1..], depth)
        case Err(e) => Err(e)
        case Ok(rest) => Ok(sub + rest)
  }

  lemma {:induction false} ParseIncludesSnoc(w: World, file: string, names: seq<string>, name: string, depth: nat)
    ensures ParseIncludes(w, file, names + [name], depth) ==
            match ParseIncludes(w, file, names, depth)
            case Err(e) => Err(e)
            case Ok(done) =>
              match ParseIncludes(w, file, [name], depth)
              case Err(e) => Err(e)
              case Ok(last) => Ok(done + last)
  {
    hide Parse;
    if names == [] {
      assert [] + [name] == [name];
      if ParseIncludes(w, file, [name], depth).Ok? {
        assert [] + ParseIncludes(w, file, [name], depth).value == ParseIncludes(w, file, [name], depth).value;
      }
    } else {
      assert (names + [name])[1..] == names[1..] + [name];
      ParseIncludesSnoc(w, file, names[1..], name, depth);
      if (file, names[0]) in w.targets && depth <= MAX_RECURSIVE_DEPTH {
        var sub := Parse(w, w.targets[(file, names[0])], depth + 1);
        var done, last := ParseIncludes(w, file, names[1..], depth), ParseIncludes(w, file, [name], depth);
        if sub.Ok? && done.Ok? && last.Ok? {
          assert sub.value + (done.value + last.value) == (sub.value + done.value) + last.value;
        }
      }
    }
  }

  lemma {:induction false} ParseIncludesPrefix(w: World, file: string, names: seq<string>, k: nat, depth: nat)
    requires k <= |names| && ParseIncludes(w, file, names[..k], depth).Err?
    ensures ParseIncludes(w, file, names, depth) == ParseIncludes(w, file, names[..k], depth)
    decreases k
  {
    hide Parse;
    if k > 0 && (file, names[0]) in w.targets && depth <= MAX_RECURSIVE_DEPTH {
      assert names[..k][1..] == names[1..][..k - 1];
      if Parse(w, w.targets[(file, names[0])], depth + 1).Ok? {
        ParseIncludesPrefix(w, file, names[1..], k - 1, depth);
      }
    }
  }

  lemma ParseOneInclude(w: World, file: string, name: string, depth: nat)
    ensures ParseIncludes(w, file, [name], depth) ==
            if (file, name) !in w.targets then Err(Unresolved)
            else if depth > MAX_RECURSIVE_DEPTH then Err(TooDeep)
            else Parse(w, w.targets[(file, name)], depth + 1)
  {
    hide Parse;
    assert [name][1..] == [];
    assert ParseIncludes(w, file, [], depth) == Ok([]);
    if (file, name) in w.targets && depth <= MAX_RECURSIVE_DEPTH && Parse(w, w.targets[(file, name)], depth + 1).Ok? {
      var sub := Parse(w, w.targets[(file, name)], depth + 1).value;
      assert sub + [] == sub;
    }
  }

  /** `parseXML`: recursive, collecting the included manifests in a loop. */
  method ParseXML(w: World, file: string, depth: nat) returns (result: Result<seq<Loaded>>)
    ensures result == Parse(w, file, depth)
    decreases MAX_RECURSIVE_DEPTH + 2 - depth
  {
    hide ParseIncludes, Fixup;
    var document := Open(w, file);
    if document.Err? { return Err(document.error); }
    var m := document.value;
    var ms, included := [Loaded(file, m)], [];
    ParseNoIncludes(w, file, depth);
    for k := 0 to |m.includes|
      invariant ParseIncludes(w, file, m.includes[..k], depth) == Ok(included)
      invariant ms == [Loaded(file, m)] + included
    {
      var name := m.includes[k];
      assert m.includes[..k + 1] == m.includes[..k] + [name];
      ParseIncludesSnoc(w, file, m.includes[..k], name, depth);
      ParseOneInclude(w, file, name, depth);
      ghost var failing := ParseIncludes(w, file, [name], depth).Err?;
      if failing { ParseIncludesPrefix(w, file, m.includes, k + 1, depth); }
      if (file, name) !in w.targets { return Err(Unresolved); }
      if depth > MAX_RECURSIVE_DEPTH { return Err(TooDeep); }
      var sub := ParseXML(w, w.targets[(file, name)], depth + 1);
      if sub.Err? { return Err(sub.error); }
      ms, included := ms + sub.value, included + sub.value;
    }
    assert m.includes[..|m.includes|] == m.includes;
    return Ok(ms);
  }

  lemma ParseNoIncludes(w: World, file: string, depth: nat)
    ensures ParseIncludes(w, file, [], depth) == Ok([])
  {
  }

  // ---- when loading succeeds

  /** A file whose own processing cannot fail. */
  ghost predicate Good(w: World, file: string) {
    && Open(w, file).Ok?
    && forall k | 0 <= k < |Open(w, file).value.includes| :: (file, Open(w, file).value.includes[k]) in w.targets
  }

  ghost predicate Includes(w: World, file: string, target: string) {
    && Open(w, file).Ok?
    && exists k :: 0 <= k < |Open(w, file).value.includes|
                   && (file, Open(w, file).value.includes[k]) in w.targets
                   && w.targets[(file, Open(w, file).value.includes[k])] == target
  }

  /** A chain of includes; it may run through the same file many times. */
  ghost predicate Chain(w: World, files: seq<string>) {
    files != [] && forall k | 0 <= k < |files| - 1 :: Includes(w, files[k], files[k + 1])
  }

  /** Every include chain from `file` is at most `limit` long and ends in a good file. */
  ghost predicate Bounded(w: World, file: string, limit: int) {
    forall chain: seq<string> | Chain(w, chain) && chain[0] == file :: |chain| <= limit && Good(w, chain[|chain| - 1])
  }

  lemma BoundedBelow(w: World, file: string, limit: int, target: string)
    requires Bounded(w, file, limit) && Includes(w, file, target)
    ensures Bounded(w, target, limit - 1)
  {
    hide Good, Includes;
    forall chain: seq<string> | Chain(w, chain) && chain[0] == target
      ensures |chain| <= limit - 1 && Good(w, chain[|chain| - 1])
    {
      LongerChain(w, file, chain);
      assert ([file] + chain)[|chain|] == chain[|chain| - 1];
    }
  }

  lemma LongerChain(w: World, file: string, chain: seq<string>)
    requires Chain(w, chain) && Includes(w, file, chain[0])
    ensures Chain(w, [file] + chain) && ([file] + chain)[0] == file
  {
    hide Includes;
  }

  lemma ShorterChain(w: World, chain: seq<string>)
    requires Chain(w, chain) && |chain| > 1
    ensures Chain(w, chain[1..]) && Includes(w, chain[0], chain[1])
  {
    hide Includes;
  }

  lemma BoundedUnfolds(w: World, file: string, limit: int)
    requires Good(w, file) && limit >= 1
    ensures Bounded(w, file, limit) <==> forall target | Includes(w, file, target) :: Bounded(w, target, limit - 1)
  {
    hide Good, Includes;
    if Bounded(w, file, limit) {
      forall target | Includes(w, file, target) ensures Bounded(w, target, limit - 1) {
        BoundedBelow(w, file, limit, target);
      }
    }
    if forall target | Includes(w, file, target) :: Bounded(w, target, limit - 1) {
      forall chain: seq<string> | Chain(w, chain) && chain[0] == file
        ensures |chain| <= limit && Good(w, chain[|chain| - 1])
      {
        if |chain| > 1 {
          ShorterChain(w, chain);
          var tail := chain[1..];
          assert Bounded(w, tail[0], limit - 1);
          assert tail[|tail| - 1] == chain[|chain| - 1];
        }
      }
    }
  }

  lemma NotGood(w: World, file: string, limit: int)
    requires !Good(w, file) || limit < 1
    ensures !Bounded(w, file, limit)
  {
    var chain := [file];
    assert Chain(w, chain) && chain[0] == file;
  }

  lemma {:induction false} ParseSucceeds(w: World, file: string, depth: nat)
    requires depth <= MAX_RECURSIVE_DEPTH + 1
    ensures Parse(w, file, depth).Ok? <==> Bounded(w, file, MAX_RECURSIVE_DEPTH + 2 - depth)
    decreases MAX_RECURSIVE_DEPTH + 2 - depth, 1, 0
  {
    var limit := MAX_RECURSIVE_DEPTH + 2 - depth;
    if Open(w, file).Ok? {
      var names := Open(w, file).value.includes;
      ParseIncludesSucceed(w, file, names, depth);
      if Good(w, file) {
        BoundedUnfolds(w, file, limit);
        IncludesByName(w, file, names, limit - 1);
      } else {
        NotGood(w, file, limit);
      }
    } else {
      NotGood(w, file, limit);
    }
  }

  lemma IncludesByName(w: World, file: string, names: seq<string>, limit: int)
    requires Good(w, file) && names == Open(w, file).value.includes
    ensures (forall target | Includes(w, file, target) :: Bounded(w, target, limit)) <==>
            forall k | 0 <= k < |names| :: Bounded(w, w.targets[(file, names[k])], limit)
  {
    hide Open, Bounded;
    forall k | 0 <= k < |names| ensures Includes(w, file, w.targets[(file, names[k])]) {}
  }

  lemma {:induction false} ParseIncludesSucceed(w: World, file: string, names: seq<string>, depth: nat)
    requires depth <= MAX_RECURSIVE_DEPTH + 1
    ensures ParseIncludes(w, file, names, depth).Ok? <==>
            forall k | 0 <= k < |names| ::
              (file, names[k]) in w.targets && Bounded(w, w.targets[(file, names[k])], MAX_RECURSIVE_DEPTH + 1 - depth)
    decreases MAX_RECURSIVE_DEPTH + 2 - depth, 0, |names|
  {
    hide Parse, Bounded;
    if names != [] {
      ParseIncludesSucceed(w, file, names[1..], depth);
      assert forall k | 1 <= k < |names| :: names[k] == names[1..][k - 1];
      if (file, names[0]) in w.targets {
        var target := w.targets[(file, names[0])];
        if depth <= MAX_RECURSIVE_DEPTH {
          ParseSucceeds(w, target, depth + 1);
        } else {
          NotGood(w, target, MAX_RECURSIVE_DEPTH + 1 - depth);
        }
      }
    }
  }

  /** Loading terminates on every include graph, cyclic ones too; from depth 1 it succeeds
      exactly when every include chain from the root has at most 11 files and ends in a file
      that loads, passes fixup and resolves its includes. */
  lemma LoadSucceeds(w: World, file: string)
    ensures Parse(w, file, 1).Ok? <==> Bounded(w, file, 11)
  {
    ParseSucceeds(w, file, 1);
  }

  /** Walking an include cycle over and over gives chains of any length. */
  lemma {:induction false} LongChain(w: World, cycle: seq<string>, length: nat) returns (chain: seq<string>)
    requires Chain(w, cycle) && Includes(w, cycle[|cycle| - 1], cycle[0])
    ensures Chain(w, chain) && chain[0] == cycle[0] && |chain| >= length
  {
    chain := cycle;
    if length > |cycle| {
      var rest := LongChain(w, cycle, length - |cycle|);
      chain := cycle + rest;
      forall k | 0 <= k < |chain| - 1 ensures Includes(w, chain[k], chain[k + 1]) {
        if k >= |cycle| {
          assert Includes(w, rest[k - |cycle|], rest[k - |cycle| + 1]);
        } else if k < |cycle| - 1 {
          assert Includes(w, cycle[k], cycle[k + 1]);
        }
      }
    }
  }

  /** A cyclic include is reported, never followed forever. */
  lemma CyclesFail(w: World, cycle: seq<string>)
    requires Chain(w, cycle) && Includes(w, cycle[|cycle| - 1], cycle[0])
    ensures Parse(w, cycle[0], 1).Err?
  {
    var chain := LongChain(w, cycle, 12);
    LoadSucceeds(w, cycle[0]);
  }

  // ---- in which order

  /** The include tree of a file: one subtree per include, in the order of the file. */
  datatype IncludeTree = Node(file: string, subs: seq<IncludeTree>)

  ghost predicate IsIncludeTree(w: World, t: IncludeTree)
    decreases t
  {
    && Open(w, t.file).Ok?
    && |t.subs| == |Open(w, t.file).value.includes|
    && AreSubtrees(w, t.file, Open(w, t.file).value.includes, t.subs)
  }

  ghost predicate AreSubtrees(w: World, file: string, names: seq<string>, subs: seq<IncludeTree>)
    requires |names| == |subs|
    decreases subs
  {
    subs != [] ==>
      && (file, names[0]) in w.targets && w.targets[(file, names[0])] == subs[0].file
      && IsIncludeTree(w, subs[0])
      && AreSubtrees(w, file, names[1..], subs[1..])
  }

  ghost function Walk(subs: seq<IncludeTree>): seq<string>
    decreases subs
  {
    if subs == [] then [] else [subs[0].file] + Walk(subs[0].subs) + Walk(subs[1..])
  }

  function Files(ms: seq<Loaded>): (r: seq<string>)
    ensures |r| == |ms|
  {
    seq(|ms|, k requires 0 <= k < |ms| => ms[k].file)
  }

  lemma FilesConcat(a: seq<Loaded>, b: seq<Loaded>)
    ensures Files(a + b) == Files(a) + Files(b)
  {
  }

  /** What was loaded, in the pre-order of the include tree; each entry is its file, fixed up. */
  lemma {:induction false} LoadsInPreorder(w: World, file: string, depth: nat) returns (t: IncludeTree)
    requires Parse(w, file, depth).Ok?
    ensures t.file == file && IsIncludeTree(w, t)
    ensures Files(Parse(w, file, depth).value) == [file] + Walk(t.subs)
    ensures forall m | m in Parse(w, file, depth).value :: Open(w, m.file) == Ok(m.manifest)
    decreases MAX_RECURSIVE_DEPTH + 2 - depth, 1, 0
  {
    var m := Open(w, file).value;
    var subs := IncludesInPreorder(w, file, m.includes, depth);
    t := Node(file, subs);
    FilesConcat([Loaded(file, m)], ParseIncludes(w, file, m.includes, depth).value);
  }

  lemma {:induction false} IncludesInPreorder(w: World, file: string, names: seq<string>, depth: nat)
    returns (subs: seq<IncludeTree>)
    requires ParseIncludes(w, file, names, depth).Ok?
    ensures |subs| == |names| && AreSubtrees(w, file, names, subs)
    ensures Files(ParseIncludes(w, file, names, depth).value) == Walk(subs)
    ensures forall m | m in ParseIncludes(w, file, names, depth).value :: Open(w, m.file) == Ok(m.manifest)
    decreases MAX_RECURSIVE_DEPTH + 2 - depth, 0, |names|
  {
    hide Open;
    subs := [];
    if names != [] {
      var t := LoadsInPreorder(w, w.targets[(file, names[0])], depth + 1);
      var rest := IncludesInPreorder(w, file, names[1..], depth);
      subs := [t] + rest;
      assert subs[1..] == rest;
      FilesConcat(Parse(w, w.targets[(file, names[0])], depth + 1).value,
                  ParseIncludes(w, file, names[1..], depth).value);
    }
  }

  /** `mergeManifests`: merges the loaded manifests into an empty one. */
  method MergeLoaded(ms: seq<Manifest>) returns (result: Result<Manifest>)
    ensures result == MergeManifests(ms)
  {
    hide Merged;
    var doc := new Document();
    for k := 0 to |ms|
      invariant fresh(doc)
      invariant MergeAll(EMPTY, ms) == MergeAll(doc.Value(), ms[k..])
    {
      assert ms[k..][0] == ms[k] && ms[k..][1..] == ms[k + 1..];
      var error := doc.Merge(ms[k]);
      if error.Some? { return Err(error.value); }
    }
    return Ok(doc.Value());
  }
}
