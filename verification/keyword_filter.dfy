/** cmd/filter-helper-keyword-subst.go: the clean and smudge filters for `$Keyword$`. */
module KeywordFilter {
  import opened Text

  const KEYWORDS := {
    "Date", "LastChangedDate", "Revision", "LastChangedRevision", "Author",
    "LastChangedBy", "HeadURL", "Id", "Header" }

  // -------------------------------------------------------- the code, on bytes

  /** The length of the part before the first `c`, or of the whole string. */
  function Before(s: string, c: char): (n: nat)
    ensures n <= |s| && c !in s[..n] && (n < |s| ==> s[n] == c)
  {
    if s == "" || s[0] == c then 0
    else
      assert s == [s[0]] + s[1..];
      1 + Before(s[1..], c)
  }

  /** The keyword of the text between two dollars. */
  function Key(body: string): string {
    body[..Before(body, ':')]
  }

  predicate Keyed(body: string) {
    Key(body) in KEYWORDS
  }

  /** The body of the match of `[$](Date|...|Header)(:[^$]*)?[$]` at the start of `s`. */
  function MatchHere(s: string): Option<string> {
    if s == "" || s[0] != '$' then None
    else
      var n := Before(s[1..], '$');
      if n < |s| - 1 && Keyed(s[1..][..n]) then Some(s[1..][..n]) else None
  }

  /** The bodies of `FindAllSubmatch`: leftmost, not overlapping. */
  function FindAll(s: string): seq<string> {
    if s == "" then []
    else
      var m := MatchHere(s);
      if m.Some? then [m.value] + FindAll(s[|m.value| + 2..]) else FindAll(s[1..])
  }

  /** `ReplaceAllString` with the template `$$$1$$`. */
  function Clean(s: string): string {
    if s == "" then ""
    else
      var m := MatchHere(s);
      if m.Some? then "$" + Key(m.value) + "$" + Clean(s[|m.value| + 2..]) else [s[0]] + Clean(s[1..])
  }

  /** `bytes.Replace(s, old, new, -1)`. */
  function Replace(s: string, old': string, new': string): string
    requires old' != ""
  {
    if s == "" then ""
    else if old' <= s then new' + Replace(s[|old'|..], old', new')
    else [s[0]] + Replace(s[1..], old', new')
  }

  /** What a keyword expands to; "" when it has no value. */
  function Value(values: map<string, string>, body: string): string {
    if Key(body) in values then values[Key(body)] else ""
  }

  function Expanded(values: map<string, string>, body: string): string {
    Key(body) + ": " + Value(values, body) + " "
  }

  /** One round of the loop in `Smudge`. */
  function ReplaceMatch(s: string, values: map<string, string>, body: string): string {
    if Value(values, body) == "" then s
    else Replace(s, "$" + body + "$", "$" + Expanded(values, body) + "$")
  }

  function ReplaceMatches(s: string, values: map<string, string>, bodies: seq<string>): string
    decreases |bodies|
  {
    if bodies == [] then s else ReplaceMatches(ReplaceMatch(s, values, bodies[0]), values, bodies[1..])
  }

  function Smudge(s: string, values: map<string, string>): string {
    ReplaceMatches(s, values, FindAll(s))
  }

  /** The filter driver; the values come from `git log` the first time one is needed. */
  class Driver {
    const history: map<string, string>
    var keywordMap: Option<map<string, string>>

    constructor (history: map<string, string>)
      ensures this.history == history && keywordMap == None
    {
      this.history, keywordMap := history, None;
    }

    ghost predicate Valid()
      reads this
    {
      keywordMap == None || keywordMap == Some(history)
    }

    method ReplaceOne(buf: string, body: string) returns (result: string)
      requires Valid()
      modifies this
      ensures keywordMap == Some(history) && result == ReplaceMatch(buf, history, body)
    {
      if keywordMap == None { keywordMap := Some(history); }
      var keyword := Key(body);
      var value := if keyword in keywordMap.value then keywordMap.value[keyword] else "";
      result := buf;
      if value != "" {
        result := Replace(buf, "$" + body + "$", "$" + (keyword + ": " + value + " ") + "$");
      }
    }

    method SmudgeLine(line: string) returns (buf: string)
      requires Valid()
      modifies this
      ensures Valid() && buf == Smudge(line, history)
    {
      hide Replace, FindAll, ReplaceMatch;
      var matches := FindAll(line);
      buf := line;
      for i := 0 to |matches|
        invariant Valid() && ReplaceMatches(buf, history, matches[i..]) == Smudge(line, history)
      {
        assert matches[i..][1..] == matches[i + 1..];
        buf := ReplaceOne(buf, matches[i]);
      }
    }
  }

  // --------------------------------------------- between the dollars of a line

  /** A scan from left to right takes the text between two dollars when `takes` says so,
      together with both dollars: two takes never share a dollar. */
  predicate Taken(parts: seq<string>, takes: string -> bool, k: int)
    decreases k
  {
    1 <= k < |parts| - 1 && takes(parts[k]) && !Taken(parts, takes, k - 1)
  }

  function Rewrite(parts: seq<string>, takes: string -> bool, to: string -> string): (r: seq<string>)
    ensures |r| == |parts|
  {
    seq(|parts|, k requires 0 <= k < |parts| => if Taken(parts, takes, k) then to(parts[k]) else parts[k])
  }

  function IsKeyed(): string -> bool {
    (body: string) => Keyed(body)
  }

  function ToKey(): string -> string {
    (body: string) => Key(body)
  }

  function Equals(m: string): string -> bool {
    (body: string) => body == m
  }

  function Always(r: string): string -> string {
    (body: string) => r
  }

  ghost predicate DollarFree(parts: seq<string>) {
    parts != [] && forall k | 0 <= k < |parts| :: '$' !in parts[k]
  }

  lemma {:induction false} TakenShift(parts: seq<string>, takes: string -> bool, n: nat, k: nat)
    requires n <= k && n < |parts| && !Taken(parts, takes, n)
    ensures Taken(parts[n..], takes, k - n) == Taken(parts, takes, k)
    decreases k
  {
    if k > n { TakenShift(parts, takes, n, k - 1); }
  }

  /** A rewritten list, unfolded from the left the way the byte scan goes. */
  lemma RewriteUnfold(parts: seq<string>, takes: string -> bool, to: string -> string)
    requires parts != []
    ensures Rewrite(parts, takes, to) ==
            if |parts| >= 3 && takes(parts[1]) then [parts[0], to(parts[1])] + Rewrite(parts[2..], takes, to)
            else if |parts| >= 2 then [parts[0]] + Rewrite(parts[1..], takes, to)
            else [parts[0]]
  {
    if |parts| >= 3 && takes(parts[1]) {
      assert !Taken(parts, takes, 0) && Taken(parts, takes, 1) && !Taken(parts, takes, 2);
      forall k | 2 <= k < |parts| ensures Rewrite(parts, takes, to)[k] == Rewrite(parts[2..], takes, to)[k - 2] {
        TakenShift(parts, takes, 2, k);
      }
    } else if |parts| >= 2 {
      assert !Taken(parts, takes, 0) && !Taken(parts, takes, 1);
      forall k | 1 <= k < |parts| ensures Rewrite(parts, takes, to)[k] == Rewrite(parts[1..], takes, to)[k - 1] {
        TakenShift(parts, takes, 1, k);
      }
    }
  }

  lemma {:induction false} BeforeConcat(a: string, c: char, t: string)
    requires c !in a
    ensures Before(a + [c] + t, c) == |a| && Before(a, c) == |a|
  {
    if a != "" {
      assert (a + [c] + t)[1..] == a[1..] + [c] + t;
      BeforeConcat(a[1..], c, t);
    }
  }

  lemma {:induction false} CleanCopies(a: string, t: string)
    requires '$' !in a
    ensures Clean(a + t) == a + Clean(t)
  {
    if a == "" {
      assert a + t == t;
    } else {
      assert (a + t)[1..] == a[1..] + t;
      CleanCopies(a[1..], t);
      assert MatchHere(a + t) == None;
    }
  }

  lemma {:induction false} FindAllSkips(a: string, t: string)
    requires '$' !in a
    ensures FindAll(a + t) == FindAll(t)
  {
    if a == "" {
      assert a + t == t;
    } else {
      assert (a + t)[1..] == a[1..] + t;
      FindAllSkips(a[1..], t);
      assert MatchHere(a + t) == None;
    }
  }

  lemma {:induction false} ReplaceCopies(a: string, t: string, old': string, new': string)
    requires '$' !in a && old' != "" && old'[0] == '$'
    ensures Replace(a + t, old', new') == a + Replace(t, old', new')
  {
    if a == "" {
      assert a + t == t;
    } else {
      assert (a + t)[1..] == a[1..] + t;
      ReplaceCopies(a[1..], t, old', new');
      assert (a + t)[0] == a[0] != '$';
    }
  }

  /** A match at a dollar, in terms of the parts after it. */
  lemma MatchAtDollar(rest: seq<string>)
    requires DollarFree(rest)
    ensures MatchHere("$" + Join(rest, '$')) == if |rest| >= 2 && Keyed(rest[0]) then Some(rest[0]) else None
    ensures |rest| >= 2 ==> ("$" + Join(rest, '$'))[|rest[0]| + 2..] == Join(rest[1..], '$')
    ensures ("$" + Join(rest, '$'))[1..] == Join(rest, '$')
  {
    var s := "$" + Join(rest, '$');
    assert s[1..] == Join(rest, '$');
    if |rest| >= 2 {
      BeforeConcat(rest[0], '$', Join(rest[1..], '$'));
      assert s[1..][..|rest[0]|] == rest[0];
    } else {
      BeforeConcat(rest[0], '$', "");
    }
  }

  /** The byte scans are rewrites of the parts. */
  lemma {:induction false} CleanJoin(parts: seq<string>)
    requires DollarFree(parts)
    ensures Clean(Join(parts, '$')) == Join(Rewrite(parts, IsKeyed(), ToKey()), '$')
    decreases |parts|
  {
    hide Clean, Join, Rewrite, Key, Keyed, Taken;
    RewriteUnfold(parts, IsKeyed(), ToKey());
    if |parts| == 1 {
      assert parts == [parts[0]];
      JoinOne(parts[0]);
      CleanCopies(parts[0], "");
      CleanNone();
    } else {
      var rest := parts[1..];
      JoinRest(parts);
      CleanCopies(parts[0], "$" + Join(rest, '$'));
      CleanAtDollar(rest);
      if |parts| >= 3 && Keyed(parts[1]) {
        assert rest[1..] == parts[2..];
        CleanJoin(parts[2..]);
        JoinTwo(parts[0], Key(parts[1]), Rewrite(parts[2..], IsKeyed(), ToKey()));
      } else {
        CleanJoin(rest);
        JoinCons(parts[0], Rewrite(rest, IsKeyed(), ToKey()), '$');
      }
    }
  }

  lemma CleanNone()
    ensures Clean("") == ""
  {
  }

  lemma CleanAtDollar(rest: seq<string>)
    requires DollarFree(rest)
    ensures Clean("$" + Join(rest, '$')) ==
            if |rest| >= 2 && Keyed(rest[0]) then "$" + Key(rest[0]) + "$" + Clean(Join(rest[1..], '$'))
            else "$" + Clean(Join(rest, '$'))
  {
    hide Key, Join;
    MatchAtDollar(rest);
  }

  /** The matched bodies from the `k`-th part on. */
  function TextsFrom(parts: seq<string>, k: nat): seq<string>
    decreases |parts| - k
  {
    if k >= |parts| then []
    else (if Taken(parts, IsKeyed(), k) then [parts[k]] else []) + TextsFrom(parts, k + 1)
  }

  lemma {:induction false} TextsShift(parts: seq<string>, n: nat, k: nat)
    requires n <= k <= |parts| && n < |parts| && !Taken(parts, IsKeyed(), n)
    ensures TextsFrom(parts[n..], k - n) == TextsFrom(parts, k)
    decreases |parts| - k
  {
    hide Taken, IsKeyed;
    if k < |parts| {
      TakenShift(parts, IsKeyed(), n, k);
      TextsShift(parts, n, k + 1);
    }
  }

  lemma TextsStep(parts: seq<string>, k: nat)
    requires k < |parts|
    ensures Taken(parts, IsKeyed(), k) ==> TextsFrom(parts, k) == [parts[k]] + TextsFrom(parts, k + 1)
    ensures !Taken(parts, IsKeyed(), k) ==> TextsFrom(parts, k) == TextsFrom(parts, k + 1)
  {
    hide Taken;
    assert [] + TextsFrom(parts, k + 1) == TextsFrom(parts, k + 1);
  }

  lemma FindAllAtDollar(rest: seq<string>)
    requires DollarFree(rest)
    ensures FindAll("$" + Join(rest, '$')) ==
            if |rest| >= 2 && Keyed(rest[0]) then [rest[0]] + FindAll(Join(rest[1..], '$'))
            else FindAll(Join(rest, '$'))
  {
    hide MatchHere, Join, Keyed;
    MatchAtDollar(rest);
  }

  lemma FindAllNone()
    ensures FindAll("") == []
  {
  }

  lemma {:induction false} FindAllJoin(parts: seq<string>)
    requires DollarFree(parts)
    ensures FindAll(Join(parts, '$')) == TextsFrom(parts, 0)
    decreases |parts|
  {
    hide FindAll, Join, TextsFrom, Keyed;
    TextsStep(parts, 0);
    if |parts| == 1 {
      JoinOne(parts[0]);
      assert parts == [parts[0]] && parts[0] + "" == parts[0];
      FindAllSkips(parts[0], "");
      FindAllNone();
      assert TextsFrom(parts, 1) == [] by { NoTexts(parts); }
    } else {
      var rest := parts[1..];
      JoinRest(parts);
      FindAllSkips(parts[0], "$" + Join(rest, '$'));
      FindAllAtDollar(rest);
      if |parts| >= 3 && Keyed(parts[1]) {
        assert rest[1..] == parts[2..];
        FindAllJoin(parts[2..]);
        TextsStep(parts, 1);
        TextsShift(parts, 2, 2);
      } else {
        FindAllJoin(rest);
        TextsShift(parts, 1, 1);
      }
    }
  }

  lemma NoTexts(parts: seq<string>)
    ensures TextsFrom(parts, |parts|) == []
  {
  }

  lemma DollarPrefix(m: string, j: string)
    requires '$' !in m
    ensures m + ['$'] <= j <==> Before(j, '$') < |j| && j[..Before(j, '$')] == m
  {
    hide Before;
    var n := Before(j, '$');
    if m + ['$'] <= j {
      var t := j[|m| + 1..];
      assert j == m + ['$'] + t;
      BeforeConcat(m, '$', t);
      assert j[..|m|] == m;
    }
    if n < |j| && j[..n] == m {
      assert m + ['$'] == j[..n + 1];
    }
  }

  lemma PrefixAfter(c: char, a: string, b: string)
    ensures [c] + a <= [c] + b <==> a <= b
  {
    assert ([c] + a)[1..] == a && ([c] + b)[1..] == b;
  }

  lemma BodyAtDollar(m: string, rest: seq<string>)
    requires DollarFree(rest) && '$' !in m
    ensures "$" + m + "$" <= "$" + Join(rest, '$') <==> |rest| >= 2 && rest[0] == m
  {
    var j := Join(rest, '$');
    PrefixAfter('$', m + ['$'], j);
    assert "$" + m + "$" == ['$'] + (m + ['$']) && "$" + j == ['$'] + j;
    DollarPrefix(m, j);
    if |rest| >= 2 {
      JoinRest(rest);
      BeforeConcat(rest[0], '$', Join(rest[1..], '$'));
      assert j == rest[0] + ['$'] + Join(rest[1..], '$');
    } else {
      BeforeConcat(rest[0], '$', "");
    }
  }

  lemma JoinRest(parts: seq<string>)
    requires |parts| >= 2
    ensures Join(parts, '$') == parts[0] + ("$" + Join(parts[1..], '$'))
  {
  }

  lemma ReplaceAtDollar(rest: seq<string>, m: string, r: string)
    requires DollarFree(rest) && '$' !in m
    ensures Replace("$" + Join(rest, '$'), "$" + m + "$", "$" + r + "$") ==
            if |rest| >= 2 && rest[0] == m
            then "$" + r + "$" + Replace(Join(rest[1..], '$'), "$" + m + "$", "$" + r + "$")
            else "$" + Replace(Join(rest, '$'), "$" + m + "$", "$" + r + "$")
  {
    var s, old' := "$" + Join(rest, '$'), "$" + m + "$";
    BodyAtDollar(m, rest);
    assert s[1..] == Join(rest, '$');
    if |rest| >= 2 && rest[0] == m {
      JoinRest(rest);
      assert s[|old'|..] == Join(rest[1..], '$');
    }
  }

  lemma {:induction false} ReplaceJoin(parts: seq<string>, m: string, r: string)
    requires DollarFree(parts) && '$' !in m
    ensures Replace(Join(parts, '$'), "$" + m + "$", "$" + r + "$") == Join(Rewrite(parts, Equals(m), Always(r)), '$')
    decreases |parts|
  {
    var old', new' := "$" + m + "$", "$" + r + "$";
    RewriteUnfold(parts, Equals(m), Always(r));
    hide Replace, Join, Rewrite, Taken;
    if |parts| == 1 {
      assert parts == [parts[0]];
      JoinOne(parts[0]);
      ReplaceCopies(parts[0], "", old', new');
      ReplaceNone(old', new');
    } else {
      var rest := parts[1..];
      var tail := "$" + Join(rest, '$');
      JoinRest(parts);
      ReplaceCopies(parts[0], tail, old', new');
      ReplaceAtDollar(rest, m, r);
      if |parts| >= 3 && parts[1] == m {
        assert rest[1..] == parts[2..];
        ReplaceJoin(parts[2..], m, r);
        JoinTwo(parts[0], r, Rewrite(parts[2..], Equals(m), Always(r)));
      } else {
        ReplaceJoin(rest, m, r);
        JoinDollar(parts[0], Rewrite(rest, Equals(m), Always(r)));
      }
    }
  }

  lemma JoinDollar(a: string, rest: seq<string>)
    requires rest != []
    ensures Join([a] + rest, '$') == a + ("$" + Join(rest, '$'))
  {
    hide Join;
    JoinCons(a, rest, '$');
    assert a + ['$'] + Join(rest, '$') == a + ("$" + Join(rest, '$'));
  }

  lemma ReplaceNone(old': string, new': string)
    requires old' != ""
    ensures Replace("", old', new') == ""
  {
  }

  lemma JoinOne(part: string)
    ensures Join([part], '$') == part && part + "" == part
  {
  }

  lemma JoinTwo(a: string, b: string, rest: seq<string>)
    requires rest != []
    ensures Join([a, b] + rest, '$') == a + ("$" + b + "$" + Join(rest, '$'))
  {
    JoinCons(b, rest, '$');
    JoinCons(a, [b] + rest, '$');
    assert [a, b] + rest == [a] + ([b] + rest);
  }

  // --------------------------------------------------- clean is idempotent

  lemma {:induction false} TakenAlike(a: seq<string>, b: seq<string>, k: int)
    requires |a| == |b| && forall p | 0 <= p < |a| :: Keyed(a[p]) == Keyed(b[p])
    ensures Taken(a, IsKeyed(), k) == Taken(b, IsKeyed(), k)
    decreases k
  {
    if 1 <= k < |a| - 1 { TakenAlike(a, b, k - 1); }
  }

  lemma KeyOfKey(body: string)
    ensures Key(Key(body)) == Key(body)
    ensures '$' !in body ==> '$' !in Key(body)
  {
    BeforeConcat(Key(body), ':', "");
  }

  lemma RewriteKeysTwice(parts: seq<string>)
    requires DollarFree(parts)
    ensures var once := Rewrite(parts, IsKeyed(), ToKey());
            DollarFree(once) && Rewrite(once, IsKeyed(), ToKey()) == once
  {
    var once := Rewrite(parts, IsKeyed(), ToKey());
    forall k | 0 <= k < |parts|
      ensures Keyed(once[k]) == Keyed(parts[k]) && '$' !in once[k]
      ensures Taken(parts, IsKeyed(), k) ==> Key(once[k]) == once[k]
    {
      KeyOfKey(parts[k]);
    }
    forall k | 0 <= k < |parts| ensures Rewrite(once, IsKeyed(), ToKey())[k] == once[k] {
      TakenAlike(once, parts, k);
    }
  }

  lemma CleanIsRewrite(s: string)
    ensures DollarFree(Split(s, '$'))
    ensures Clean(s) == Join(Rewrite(Split(s, '$'), IsKeyed(), ToKey()), '$')
  {
    JoinSplit(s, '$');
    CleanJoin(Split(s, '$'));
  }

  /** Cleaning a clean line changes nothing, whatever the line. */
  lemma CleanIdempotent(s: string)
    ensures Clean(Clean(s)) == Clean(s)
  {
    CleanIsRewrite(s);
    var once := Rewrite(Split(s, '$'), IsKeyed(), ToKey());
    RewriteKeysTwice(Split(s, '$'));
    CleanJoin(once);
  }

  // ----------------------------------------------- cleaning a smudged line

  ghost predicate DollarFreeValues(values: map<string, string>) {
    forall k | k in values :: '$' !in values[k]
  }

  /** Smudging replaces this text, and by something else. */
  predicate Effective(values: map<string, string>, body: string) {
    Value(values, body) != "" && Expanded(values, body) != body
  }

  /** One round of the loop in `Smudge`, on the parts. */
  function NextParts(now: seq<string>, values: map<string, string>, m: string): (r: seq<string>)
    ensures |r| == |now|
  {
    if Value(values, m) == "" then now else Rewrite(now, Equals(m), Always(Expanded(values, m)))
  }

  /** The parts before the match at `n` is dealt with. */
  function Stage(parts: seq<string>, values: map<string, string>, n: nat): (r: seq<string>)
    requires n <= |parts|
    ensures |r| == |parts|
  {
    if n == 0 then parts
    else
      var now := Stage(parts, values, n - 1);
      if Taken(parts, IsKeyed(), n - 1) then NextParts(now, values, parts[n - 1]) else now
  }

  lemma ExpandedByKey(values: map<string, string>, body: string)
    ensures Key(Expanded(values, body)) == Key(body)
    ensures forall other: string :: Key(other) == Key(body) ==> Expanded(values, other) == Expanded(values, body)
    ensures DollarFreeValues(values) && '$' !in body ==> '$' !in Expanded(values, body)
  {
    BeforeConcat(Key(body), ':', " " + Value(values, body) + " ");
    assert Expanded(values, body) == Key(body) + [':'] + (" " + Value(values, body) + " ");
    KeyOfKey(body);
  }

  lemma {:induction false} StagesDollarFree(parts: seq<string>, values: map<string, string>, n: nat)
    requires DollarFree(parts) && DollarFreeValues(values) && n <= |parts|
    ensures DollarFree(Stage(parts, values, n))
  {
    hide Expanded;
    if n > 0 {
      StagesDollarFree(parts, values, n - 1);
      ExpandedByKey(values, parts[n - 1]);
    }
  }

  lemma {:induction false} SmudgeStages(parts: seq<string>, values: map<string, string>, n: nat)
    requires DollarFree(parts) && DollarFreeValues(values) && n <= |parts|
    ensures ReplaceMatches(Join(Stage(parts, values, n), '$'), values, TextsFrom(parts, n)) ==
            Join(Stage(parts, values, |parts|), '$')
    decreases |parts| - n
  {
    hide Expanded, Join, Replace, Rewrite, Taken;
    if n < |parts| {
      SmudgeStages(parts, values, n + 1);
      if Taken(parts, IsKeyed(), n) {
        var m := parts[n];
        StagesDollarFree(parts, values, n);
        ExpandedByKey(values, m);
        ReplaceJoin(Stage(parts, values, n), m, Expanded(values, m));
        assert TextsFrom(parts, n)[1..] == TextsFrom(parts, n + 1);
      } else {
        assert [] + TextsFrom(parts, n + 1) == TextsFrom(parts, n + 1);
      }
    }
  }

  lemma SmudgeIsStages(s: string, values: map<string, string>)
    requires DollarFreeValues(values)
    ensures var parts := Split(s, '$');
            Smudge(s, values) == Join(Stage(parts, values, |parts|), '$')
  {
    var parts := Split(s, '$');
    JoinSplit(s, '$');
    FindAllJoin(parts);
    SmudgeStages(parts, values, 0);
  }

  /** A part is as it was, or expanded because an earlier match has the same text. */
  ghost predicate Mid(parts: seq<string>, values: map<string, string>, now: seq<string>, n: nat) {
    |now| == |parts| &&
    forall p | 0 <= p < |parts| && now[p] != parts[p] ::
      && now[p] == Expanded(values, parts[p]) && Effective(values, parts[p])
      && exists j :: 0 <= j < n && j < |parts| && Taken(parts, IsKeyed(), j) && parts[j] == parts[p]
  }

  lemma {:induction false} StageIsMid(parts: seq<string>, values: map<string, string>, n: nat)
    requires n <= |parts|
    ensures Mid(parts, values, Stage(parts, values, n), n)
  {
    if n > 0 {
      StageIsMid(parts, values, n - 1);
      var now, next := Stage(parts, values, n - 1), Stage(parts, values, n);
      forall p | 0 <= p < |parts| && next[p] != parts[p]
        ensures next[p] == Expanded(values, parts[p]) && Effective(values, parts[p])
        ensures exists j :: 0 <= j < n && j < |parts| && Taken(parts, IsKeyed(), j) && parts[j] == parts[p]
      {
        if now[p] == parts[p] {
          assert Taken(parts, IsKeyed(), n - 1) && parts[n - 1] == parts[p];
        } else {
          ExpandedByKey(values, parts[p]);
        }
      }
    }
  }

  /** A part that has changed stays changed. */
  lemma {:induction false} StaysChanged(parts: seq<string>, values: map<string, string>, p: nat, n: nat, later: nat)
    requires p < |parts| && n <= later <= |parts| && Stage(parts, values, n)[p] != parts[p]
    ensures Stage(parts, values, later)[p] != parts[p]
    decreases later
  {
    hide Expanded, IsKeyed, Mid, Stage;
    if n < later {
      StaysChanged(parts, values, p, n, later - 1);
      KeepsExpansion(parts, values, p, later - 1);
    }
  }

  lemma KeepsExpansion(parts: seq<string>, values: map<string, string>, p: nat, n: nat)
    requires p < |parts| && n < |parts| && Stage(parts, values, n)[p] != parts[p]
    ensures Stage(parts, values, n + 1)[p] == Stage(parts, values, n)[p]
  {
    hide Expanded, IsKeyed, Key;
    StageIsMid(parts, values, n);
    ExpandedByKey(values, parts[p]);
  }

  /** A part that the scan for keywords skips, though a match elsewhere has the same text;
      the match just before it does not count, for it takes the dollar away. */
  ghost predicate Collides(parts: seq<string>, values: map<string, string>, k: nat, j: nat) {
    && 1 <= k < |parts| - 1 && j < |parts| && j != k - 1
    && !Taken(parts, IsKeyed(), k) && Taken(parts, IsKeyed(), j)
    && parts[j] == parts[k] && Effective(values, parts[k])
  }

  ghost predicate NoCollision(parts: seq<string>, values: map<string, string>) {
    forall k, j :: !Collides(parts, values, k, j)
  }

  ghost predicate SkippedKept(parts: seq<string>, now: seq<string>) {
    |now| == |parts| && forall p | 0 <= p < |parts| && !Taken(parts, IsKeyed(), p) :: now[p] == parts[p]
  }

  lemma {:induction false} StepKeepsSkipped(parts: seq<string>, values: map<string, string>, now: seq<string>, n: nat,
                                            p: nat)
    requires NoCollision(parts, values) && Mid(parts, values, now, n) && SkippedKept(parts, now)
    requires n < |parts| && Taken(parts, IsKeyed(), n) && Effective(values, parts[n])
    requires p < |parts| && !Taken(parts, IsKeyed(), p)
    ensures !Taken(now, Equals(parts[n]), p)
    decreases p
  {
    hide Expanded, Effective, IsKeyed;
    var m := parts[n];
    if 1 <= p < |parts| - 1 && now[p] == m {
      assert !Collides(parts, values, p, n);
      assert p - 1 == n;
      forall j | 0 <= j < n && Taken(parts, IsKeyed(), j) ensures parts[j] != parts[n] {
        assert !Collides(parts, values, p, j);
      }
      assert now[n] == m;
      StepKeepsSkipped(parts, values, now, n, n - 1);
      assert Taken(now, Equals(m), n);
    }
  }

  lemma {:induction false} StagesKeepSkipped(parts: seq<string>, values: map<string, string>, n: nat)
    requires NoCollision(parts, values) && n <= |parts|
    ensures SkippedKept(parts, Stage(parts, values, n))
  {
    if n > 0 {
      StagesKeepSkipped(parts, values, n - 1);
      StageIsMid(parts, values, n - 1);
      var now := Stage(parts, values, n - 1);
      if Taken(parts, IsKeyed(), n - 1) && Effective(values, parts[n - 1]) {
        forall p | 0 <= p < |parts| && !Taken(parts, IsKeyed(), p) ensures Stage(parts, values, n)[p] == parts[p] {
          StepKeepsSkipped(parts, values, now, n - 1, p);
        }
      }
    }
  }

  /** Dealing with a match of the text of a skipped part changes that part, unless the part
      before it still has that text and takes the dollar between them. */
  lemma StepHits(parts: seq<string>, values: map<string, string>, k: nat, n: nat)
    requires 1 <= k < |parts| - 1 && n < |parts| && Taken(parts, IsKeyed(), n)
    requires parts[n] == parts[k] && Effective(values, parts[k])
    requires Stage(parts, values, n)[k] == parts[k]
    ensures var now, next := Stage(parts, values, n), Stage(parts, values, n + 1);
            next[k] != parts[k] || (now[k - 1] == parts[k] && next[k - 1] != parts[k])
  {
    hide Expanded, Value, Key;
    var now := Stage(parts, values, n);
    if !Taken(now, Equals(parts[k]), k) {
      assert Taken(now, Equals(parts[k]), k - 1);
    }
  }

  lemma CollisionChanges(parts: seq<string>, values: map<string, string>, k: nat, j: nat)
    requires Collides(parts, values, k, j)
    ensures Stage(parts, values, |parts|)[k] != parts[k]
  {
    hide Expanded, Stage, NextParts, Value, Key;
    var m, last := parts[k], |parts|;
    assert Taken(parts, IsKeyed(), k - 1);
    if parts[k - 1] != m {
      StageIsMid(parts, values, j);
      ExpandedByKey(values, parts[k - 1]);
      HitOrStays(parts, values, k, j);
    } else {
      var first, second := if j < k - 1 then j else k - 1, if j < k - 1 then k - 1 else j;
      if Stage(parts, values, first)[k] == m {
        StepHits(parts, values, k, first);
        if Stage(parts, values, first + 1)[k] == m {
          StaysChanged(parts, values, k - 1, first + 1, second);
          StageIsMid(parts, values, second);
          HitOrStays(parts, values, k, second);
        } else {
          StaysChanged(parts, values, k, first + 1, last);
        }
      } else {
        StaysChanged(parts, values, k, first, last);
      }
    }
  }

  lemma HitOrStays(parts: seq<string>, values: map<string, string>, k: nat, n: nat)
    requires 1 <= k < |parts| - 1 && n < |parts| && Taken(parts, IsKeyed(), n)
    requires parts[n] == parts[k] && Effective(values, parts[k])
    requires Stage(parts, values, n)[k - 1] != parts[k]
    ensures Stage(parts, values, |parts|)[k] != parts[k]
  {
    hide Expanded, Stage, NextParts;
    if Stage(parts, values, n)[k] == parts[k] {
      StepHits(parts, values, k, n);
      StaysChanged(parts, values, k, n + 1, |parts|);
    } else {
      StaysChanged(parts, values, k, n, |parts|);
    }
  }

  lemma TakenChanges(parts: seq<string>, values: map<string, string>, k: nat)
    requires NoCollision(parts, values) && k < |parts| && Taken(parts, IsKeyed(), k) && Effective(values, parts[k])
    ensures Stage(parts, values, |parts|)[k] != parts[k]
  {
    hide Stage, Effective, NoCollision, IsKeyed;
    if Stage(parts, values, k)[k] == parts[k] {
      assert 1 <= k < |parts| - 1 && !Taken(parts, IsKeyed(), k - 1);
      hide Taken;
      StepHits(parts, values, k, k);
      StagesKeepSkipped(parts, values, k + 1);
      StagesKeepSkipped(parts, values, k);
      StaysChanged(parts, values, k, k + 1, |parts|);
    } else {
      StaysChanged(parts, values, k, k, |parts|);
    }
  }

  lemma TakenIsExpanded(parts: seq<string>, values: map<string, string>, k: nat)
    requires NoCollision(parts, values) && k < |parts| && Taken(parts, IsKeyed(), k) && Value(values, parts[k]) != ""
    ensures Stage(parts, values, |parts|)[k] == Expanded(values, parts[k])
  {
    hide Expanded, Stage, NextParts, Value, Taken, IsKeyed, NoCollision;
    StageIsMid(parts, values, |parts|);
    if Effective(values, parts[k]) { TakenChanges(parts, values, k); }
  }

  lemma SmudgedPart(parts: seq<string>, values: map<string, string>, k: nat)
    requires NoCollision(parts, values) && k < |parts|
    ensures var key := Key(parts[k]);
            Stage(parts, values, |parts|)[k] ==
            if Taken(parts, IsKeyed(), k) && key in values && values[key] != ""
            then key + ": " + values[key] + " " else parts[k]
  {
    hide Stage, Taken, Key, NoCollision;
    StagesKeepSkipped(parts, values, |parts|);
    StageIsMid(parts, values, |parts|);
    if Taken(parts, IsKeyed(), k) && Value(values, parts[k]) != "" { TakenIsExpanded(parts, values, k); }
  }

  /** What smudging is for: without collisions, every match whose keyword has a value is replaced
      by the keyword and that value, and everything else on the line stays as it is. */
  lemma SmudgeMeans(s: string, values: map<string, string>)
    requires DollarFreeValues(values) && NoCollision(Split(s, '$'), values)
    ensures var before, after := Split(s, '$'), Split(Smudge(s, values), '$');
      && |after| == |before|
      && forall k | 0 <= k < |before| ::
           var key := Key(before[k]);
           after[k] == if Taken(before, IsKeyed(), k) && key in values && values[key] != ""
                       then key + ": " + values[key] + " " else before[k]
  {
    hide Stage, Taken, Smudge, Key, Split, NoCollision, Join, DollarFreeValues;
    var parts := Split(s, '$');
    SmudgeIsStages(s, values);
    StagesDollarFree(parts, values, |parts|);
    SplitJoin(Stage(parts, values, |parts|), '$');
    forall k | 0 <= k < |parts|
      ensures var key := Key(parts[k]);
              Stage(parts, values, |parts|)[k] ==
              if Taken(parts, IsKeyed(), k) && key in values && values[key] != ""
              then key + ": " + values[key] + " " else parts[k] {
      SmudgedPart(parts, values, k);
    }
  }

  lemma {:induction false} KeysSurvive(parts: seq<string>, values: map<string, string>)
    ensures var final := Stage(parts, values, |parts|);
            && (forall k | 0 <= k < |parts| :: Key(final[k]) == Key(parts[k]))
            && (forall k :: Taken(final, IsKeyed(), k) == Taken(parts, IsKeyed(), k))
  {
    hide Expanded, Stage, Taken;
    var final := Stage(parts, values, |parts|);
    StageIsMid(parts, values, |parts|);
    forall k | 0 <= k < |parts| ensures Key(final[k]) == Key(parts[k]) { ExpandedByKey(values, parts[k]); }
    forall k ensures Taken(final, IsKeyed(), k) == Taken(parts, IsKeyed(), k) { TakenAlike(final, parts, k); }
  }

  /** The round trip, exactly: with values that contain no dollar, cleaning a smudged line gives
      what cleaning the line itself gives, if and only if no skipped part collides with a match. */
  lemma CleanAfterSmudge(s: string, values: map<string, string>)
    requires DollarFreeValues(values)
    ensures Clean(Smudge(s, values)) == Clean(s) <==> NoCollision(Split(s, '$'), values)
  {
    hide Expanded, Clean, Stage, Taken, Effective, Smudge;
    var parts := Split(s, '$');
    var final := Stage(parts, values, |parts|);
    var a, b := Rewrite(parts, IsKeyed(), ToKey()), Rewrite(final, IsKeyed(), ToKey());
    CleanIsRewrite(s);
    SmudgeIsStages(s, values);
    StagesDollarFree(parts, values, |parts|);
    CleanJoin(final);
    KeysSurvive(parts, values);
    RewriteKeysTwice(parts);
    RewriteKeysTwice(final);
    if Join(a, '$') == Join(b, '$') {
      SplitJoin(a, '$');
      SplitJoin(b, '$');
      assert a == b;
    }
    forall k: nat, j: nat | Collides(parts, values, k, j) ensures k < |parts| && a[k] != b[k] {
      CollisionChanges(parts, values, k, j);
    }
    if NoCollision(parts, values) {
      StagesKeepSkipped(parts, values, |parts|);
      assert a == b;
    }
  }

  /** A line that does not come back: the second "Id" is skipped, for the first match takes
      its dollar, but the third one's expansion hits it all the same. */
  lemma CollisionBreaks()
    ensures exists s: string, values: map<string, string> ::
              DollarFreeValues(values) && Clean(Smudge(s, values)) != Clean(s)
  {
    hide Clean, Smudge, Key;
    var parts, values := ["", "Id", "Id", " ", "Id", ""], map["Id" := "v"];
    var s := Join(parts, '$');
    KeyOfId();
    KeyedId();
    SplitJoin(parts, '$');
    assert !Keyed(" ") by { SpaceIsNoKey(); }
    assert Taken(parts, IsKeyed(), 1) && !Taken(parts, IsKeyed(), 2) && !Taken(parts, IsKeyed(), 3);
    assert Taken(parts, IsKeyed(), 4);
    assert Value(values, "Id") == "v" && |Expanded(values, "Id")| > 2;
    assert Collides(parts, values, 2, 4);
    CleanAfterSmudge(s, values);
  }

  lemma SpaceIsNoKey()
    ensures !Keyed(" ")
  {
    BeforeConcat(" ", ':', "");
    assert Key(" ") == " ";
  }

  lemma KeyOfId()
    ensures Key("Id") == "Id" && Key("Id: ") == "Id"
  {
    BeforeConcat("Id", ':', " ");
    assert "Id: " == "Id" + [':'] + " ";
  }

  lemma SmudgeId(values: map<string, string>)
    requires "Id" in values && values["Id"] != ""
    ensures Smudge("$Id$", values) == "$Id: " + values["Id"] + " $"
    ensures Clean("$Id$") == "$Id$"
  {
    hide Before, Keyed;
    var s, e := "$Id$", "$" + Expanded(values, "Id") + "$";
    KeyOfId();
    MatchAtDollar(["Id", ""]);
    assert Keyed("Id") by { KeyedId(); }
    assert s == "$" + Join(["Id", ""], '$') && s[4..] == "";
    assert FindAll(s) == ["Id"] + FindAll("") == ["Id"];
    assert Clean(s) == "$" + "Id" + "$" + Clean("");
    assert "$" + "Id" + "$" == s && s[|s|..] == "";
    assert Replace(s, s, e) == e + Replace("", s, e);
    assert ["Id"][1..] == [];
    assert Smudge(s, values) == ReplaceMatches(ReplaceMatch(s, values, "Id"), values, []) == e;
  }

  lemma KeyedId()
    ensures Keyed("Id") && Keyed("Id: ")
  {
    KeyOfId();
  }

  /** Why the values must not contain a dollar: "$Id$" with the value "$" comes back as "$Id$ $". */
  lemma DollarValueBreaks()
    ensures exists s: string, values: map<string, string> :: Clean(Smudge(s, values)) != Clean(s)
  {
    hide Before, Keyed, Clean, Smudge, Key;
    var s, values, parts := "$Id$", map["Id" := "$"], ["", "Id: ", " ", ""];
    SmudgeId(values);
    KeyOfId();
    KeyedId();
    assert Join([" ", ""], '$') == " $" && Join(parts[1..], '$') == "Id: $ $";
    assert Smudge(s, values) == Join(parts, '$');
    CleanJoin(parts);
    RewriteUnfold(parts, IsKeyed(), ToKey());
    assert Clean(Smudge(s, values)) == Join(["", "Id"] + Rewrite([" ", ""], IsKeyed(), ToKey()), '$');
    JoinTwo("", "Id", Rewrite([" ", ""], IsKeyed(), ToKey()));
    RewriteUnfold([" ", ""], IsKeyed(), ToKey());
    assert |Clean(Smudge(s, values))| > 4;
  }

  // -------------------------------------------- the scan and the pattern

  /** What the pattern accepts between the dollars: a keyword, or a keyword, ':' and anything. */
  ghost predicate InPattern(body: string) {
    '$' !in body && exists k | k in KEYWORDS :: body == k || k + [':'] <= body
  }

  lemma KeywordsArePlain(k: string)
    requires k in KEYWORDS
    ensures ':' !in k
  {
  }

  lemma KeyOfPattern(k: string, body: string)
    requires ':' !in k && (body == k || k + [':'] <= body)
    ensures Key(body) == k
  {
    hide Before;
    if body == k {
      BeforeConcat(k, ':', "");
    } else {
      var rest := body[|k| + 1..];
      assert body == k + [':'] + rest;
      BeforeConcat(k, ':', rest);
    }
  }

  lemma PatternOfKey(body: string)
    ensures body == Key(body) || Key(body) + [':'] <= body
  {
    var n := Before(body, ':');
    hide Before;
    if n < |body| { assert body[..n] + [':'] == body[..n + 1]; }
  }

  lemma KeyedIsPattern(body: string)
    requires '$' !in body
    ensures InPattern(body) <==> Keyed(body)
  {
    hide Key;
    PatternOfKey(body);
    if InPattern(body) {
      var k :| k in KEYWORDS && (body == k || k + [':'] <= body);
      KeywordsArePlain(k);
      KeyOfPattern(k, body);
    }
  }

  /** At each place the scan accepts exactly the texts of the pattern, and each in one way. */
  lemma MatchIsPattern(s: string, body: string)
    requires '$' !in body
    ensures MatchHere(s) == Some(body) <==> "$" + body + "$" <= s && InPattern(body)
  {
    hide Keyed, InPattern, Before;
    KeyedIsPattern(body);
    if s != "" && s[0] == '$' {
      var t := s[1..];
      assert s == ['$'] + t && "$" + body + "$" == ['$'] + (body + ['$']);
      PrefixAfter('$', body + ['$'], t);
      DollarPrefix(body, t);
    }
  }
}
