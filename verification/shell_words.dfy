/** helper/shell.go: quoting the words of a command, and taking a line apart
    again.  Strings are sequences of runes here. */
module ShellWords {
  import opened Text

  datatype ShellCmd = ShellCmd(cmd: string, args: seq<string>) {
    function Words(): seq<string> {
      [cmd] + args
    }
  }

  // ---------------------------------------------------------------- quoting

  /** Matches `NormalArgsPattern`: such a word is written as it is. */
  predicate IsNormal(s: string) {
    && s != ""
    && forall k | 0 <= k < |s| ::
         '0' <= s[k] <= '9' || 'a' <= s[k] <= 'z' || 'A' <= s[k] <= 'Z' || s[k] in ":/%,.@+=_-"
  }

  predicate IsQuote(c: char) {
    c == '"' || c == '\''
  }

  /** Begins and ends with the same quote character; a lone quote does too. */
  predicate Bookended(s: string) {
    s != "" && IsQuote(s[0]) && s[0] == s[|s| - 1]
  }

  /** Puts a backslash before each double quote that no backslash precedes. */
  function Escape(s: string, hasBackSlash: bool): string {
    if s == "" then ""
    else if hasBackSlash then [s[0]] + Escape(s[1..], false)
    else if s[0] == '\\' then [s[0]] + Escape(s[1..], true)
    else if s[0] == '"' then ['\\', '"'] + Escape(s[1..], false)
    else [s[0]] + Escape(s[1..], false)
  }

  function Quote(s: string): string {
    if Bookended(s) || IsNormal(s) then s else ['"'] + Escape(s, false) + ['"']
  }

  function QuoteTail(args: seq<string>): string {
    if args == [] then "" else [' '] + Quote(args[0]) + QuoteTail(args[1..])
  }

  function QuoteLine(c: ShellCmd): string {
    Quote(c.cmd) + QuoteTail(c.args)
  }

  /** None is the panic of indexing an empty word. */
  method QuoteString(s: string) returns (quoted: Option<string>)
    ensures quoted == if s == "" then None else Some(Quote(s))
  {
    if s == "" { return None; }
    if (s[0] == '"' || s[0] == '\'') && s[0] == s[|s| - 1] { return Some(s); }
    if IsNormal(s) { return Some(s); }
    var hasBackSlash := false;
    var buf := ['"'];
    for i := 0 to |s|
      invariant buf + Escape(s[i..], hasBackSlash) == ['"'] + Escape(s, false)
    {
      var c := s[i];
      assert s[i..][1..] == s[i + 1..];
      if hasBackSlash {
        hasBackSlash := false;
        buf := buf + [c];
        continue;
      }
      if c == '\\' {
        hasBackSlash := true;
        buf := buf + [c];
        continue;
      }
      if c == '"' {
        buf := buf + ['\\', '"'];
      } else {
        buf := buf + [c];
      }
    }
    assert s[|s|..] == "";
    assert buf + Escape("", hasBackSlash) == buf;
    return Some(buf + ['"']);
  }

  method QuoteCommand(v: ShellCmd) returns (line: Option<string>)
    ensures line == if "" in v.Words() then None else Some(QuoteLine(v))
  {
    hide Quote;
    var word := QuoteString(v.cmd);
    if word.None? { return None; }
    var cmd := word.value;
    for i := 0 to |v.args|
      invariant "" !in v.args[..i]
      invariant cmd + QuoteTail(v.args[i..]) == QuoteLine(v)
    {
      assert v.args[i..][1..] == v.args[i + 1..];
      cmd := cmd + [' '];
      word := QuoteString(v.args[i]);
      if word.None? { return None; }
      cmd := cmd + word.value;
    }
    assert v.args[..|v.args|] == v.args && v.args[|v.args|..] == [];
    assert cmd + QuoteTail([]) == cmd;
    assert "" !in [v.cmd] && "" !in v.args;
    return Some(cmd);
  }

  // ---------------------------------------------------------------- parsing

  datatype Scan = Scan(quote: Option<char>, isSpace: bool, token: string, args: seq<string>)

  const START := Scan(None, false, "", [])

  function Step(st: Scan, c: char): Scan {
    if st.quote.None? && IsQuote(c) then st.(quote := Some(c), isSpace := false)
    else if st.quote.Some? then
      if c == st.quote.value then st.(quote := None, isSpace := false) else st.(token := st.token + [c])
    else if IsSpace(c) then
      if st.isSpace then st else Scan(None, true, "", st.args + [st.token])
    else st.(isSpace := false, token := st.token + [c])
  }

  function Run(st: Scan, s: string): Scan
    decreases s
  {
    if s == "" then st else Run(Step(st, s[0]), s[1..])
  }

  function Finish(st: Scan): seq<string> {
    if st.token != "" then st.args + [st.token] else st.args
  }

  function FromWords(words: seq<string>): ShellCmd {
    ShellCmd(if words == [] then "" else words[0], if |words| > 1 then words[1..] else [])
  }

  function Parse(line: string): ShellCmd {
    FromWords(Finish(Run(START, TrimSpace(line))))
  }

  method NewShellCmd(line: string, withArgs: bool) returns (shellCmd: ShellCmd)
    ensures shellCmd == if withArgs then Parse(line) else ShellCmd(TrimSpace(line), [])
  {
    hide TrimSpace, IsSpace;
    var cmd := TrimSpace(line);
    if !withArgs { return ShellCmd(cmd, []); }
    var quoteChar, isQuote, isSpace, token, cmdArgs := ' ', false, false, "", [];
    for i := 0 to |cmd|
      invariant Run(Scan(if isQuote then Some(quoteChar) else None, isSpace, token, cmdArgs), cmd[i..])
                == Run(START, cmd)
    {
      var c := cmd[i];
      assert cmd[i..][1..] == cmd[i + 1..];
      if !isQuote && (c == '\'' || c == '"') {
        quoteChar, isQuote, isSpace := c, true, false;
        continue;
      }
      if isQuote {
        if c == quoteChar {
          isQuote, isSpace := false, false;
          continue;
        }
        token := token + [c];
        continue;
      }
      if IsSpace(c) {
        if isSpace { continue; }
        isSpace := true;
        cmdArgs := cmdArgs + [token];
        token := "";
        continue;
      }
      isSpace := false;
      token := token + [c];
    }
    if |token| > 0 { cmdArgs := cmdArgs + [token]; }
    shellCmd := ShellCmd("", []);
    if |cmdArgs| > 0 { shellCmd := shellCmd.(cmd := cmdArgs[0]); }
    if |cmdArgs| > 1 { shellCmd := shellCmd.(args := cmdArgs[1..]); }
  }

  lemma {:induction false} RunConcat(st: Scan, a: string, b: string)
    ensures Run(st, a + b) == Run(Run(st, a), b)
    decreases a
  {
    hide Step;
    if a == "" {
      assert a + b == b;
    } else {
      assert (a + b)[1..] == a[1..] + b;
      RunConcat(Step(st, a[0]), a[1..], b);
    }
  }

  // ------------------------------------------------- words that come through

  /** What quoting and parsing give back. */
  predicate Survives(w: string) {
    '"' !in w && !(w != "" && w[0] == '\'' == w[|w| - 1])
  }

  lemma {:induction false} EscapeNothing(w: string, hasBackSlash: bool)
    requires '"' !in w
    ensures Escape(w, hasBackSlash) == w
  {
    if w != "" {
      assert w == [w[0]] + w[1..];
      EscapeNothing(w[1..], !hasBackSlash && w[0] == '\\');
    }
  }

  /** Inside double quotes every other character belongs to the word. */
  lemma {:induction false} ScanQuoted(st: Scan, w: string)
    requires '"' !in w && st.quote == Some('"')
    ensures Run(st, w) == st.(token := st.token + w)
    decreases w
  {
    if w != "" {
      ScanQuoted(Step(st, w[0]), w[1..]);
      assert st.token + [w[0]] + w[1..] == st.token + w;
    }
  }

  lemma NormalIsPlain(w: string)
    requires IsNormal(w)
    ensures forall k | 0 <= k < |w| :: !IsQuote(w[k]) && !IsSpace(w[k])
  {
  }

  lemma {:induction false} ScanPlain(st: Scan, w: string)
    requires w != "" && forall k | 0 <= k < |w| :: !IsQuote(w[k]) && !IsSpace(w[k])
    requires st.quote.None?
    ensures Run(st, w) == Scan(None, false, st.token + w, st.args)
    decreases w
  {
    hide IsQuote, IsSpace;
    var next := Step(st, w[0]);
    assert next == Scan(None, false, st.token + [w[0]], st.args);
    if |w| == 1 {
      assert Run(next, w[1..]) == next;
      assert w == [w[0]];
    } else {
      ScanPlain(next, w[1..]);
      assert st.token + [w[0]] + w[1..] == st.token + w;
    }
  }

  lemma ScanWord(st: Scan, w: string)
    requires w != "" && Survives(w) && st.quote.None?
    ensures Run(st, Quote(w)) == Scan(None, false, st.token + w, st.args)
  {
    if IsNormal(w) {
      NormalIsPlain(w);
      ScanPlain(st, w);
    } else {
      hide IsNormal, Escape, Run;
      EscapeNothing(w, false);
      var open := Step(st, '"');
      var q: string := ['"'];
      ScanQuoted(open, w);
      RunOne(st, '"');
      RunConcat(st, q, w);
      RunConcat(st, q + w, q);
      RunOne(open.(token := st.token + w), '"');
    }
  }

  lemma RunOne(st: Scan, c: char)
    ensures Run(st, [c]) == Step(st, c)
  {
    assert [c][1..] == "";
  }

  lemma {:induction false} ScanTail(st: Scan, ws: seq<string>)
    requires st.quote.None? && !st.isSpace && st.token != ""
    requires forall w | w in ws :: w != "" && Survives(w)
    ensures Finish(Run(st, QuoteTail(ws))) == st.args + [st.token] + ws
    decreases ws
  {
    hide Survives, Quote;
    if ws == [] {
      assert QuoteTail(ws) == "" && Run(st, "") == st;
      assert Finish(st) == st.args + [st.token];
      assert st.args + [st.token] + ws == st.args + [st.token];
    } else {
      assert ws[0] in ws;
      var next := Scan(None, true, "", st.args + [st.token]);
      var after := Scan(None, false, ws[0], next.args);
      RunOne(st, ' ');
      assert Step(st, ' ') == next;
      ScanWord(next, ws[0]);
      RunConcat(st, [' '], Quote(ws[0]));
      RunConcat(st, [' '] + Quote(ws[0]), QuoteTail(ws[1..]));
      assert forall w | w in ws[1..] :: w in ws;
      assert "" + ws[0] == ws[0];
      ScanTail(after, ws[1..]);
      assert QuoteTail(ws) == [' '] + Quote(ws[0]) + QuoteTail(ws[1..]);
      assert Run(st, QuoteTail(ws)) == Run(after, QuoteTail(ws[1..]));
      assert st.args + [st.token] + [ws[0]] + ws[1..] == st.args + [st.token] + ws;
    }
  }

  // ----------------------------------------------------- words that do not

  function Concat(ss: seq<string>): string {
    if ss == [] then "" else Concat(ss[..|ss| - 1]) + ss[|ss| - 1]
  }

  lemma {:induction false} ConcatCons(w: string, ws: seq<string>)
    ensures Concat([w] + ws) == w + Concat(ws)
  {
    var all := [w] + ws;
    if ws == [] {
      assert all[..0] == [] && Concat(all) == Concat([]) + w;
    } else {
      assert all[..|all| - 1] == [w] + ws[..|ws| - 1];
      ConcatCons(w, ws[..|ws| - 1]);
    }
  }

  /** The characters kept so far, in order. */
  function Kept(st: Scan): string {
    Concat(st.args) + st.token
  }

  /** A step keeps the character or drops it. */
  lemma StepKeeps(st: Scan, c: char)
    ensures var next := Kept(Step(st, c));
      next == Kept(st) + [c] || next == Kept(st)
  {
    hide IsSpace;
    var args := st.args + [st.token];
    assert args[..|args| - 1] == st.args;
    assert Concat(args) == Concat(st.args) + st.token;
    assert Concat(args) + "" == Kept(st);
    assert Concat(st.args) + (st.token + [c]) == Kept(st) + [c];
    if st.quote.None? && !IsQuote(c) && IsSpace(c) && !st.isSpace {
      assert Step(st, c) == Scan(None, true, "", args);
    } else {
      assert Step(st, c).args == st.args;
      assert Step(st, c).token == st.token || Step(st, c).token == st.token + [c];
    }
  }

  /** Parsing makes up no single quote, and if it drops none, it drops every double quote. */
  lemma {:induction false} RunKeeps(st: Scan, s: string)
    ensures multiset(Kept(Run(st, s)))['\''] <= multiset(Kept(st))['\''] + multiset(s)['\'']
    ensures st.quote in {None, Some('"')}
            && multiset(Kept(Run(st, s)))['\''] == multiset(Kept(st))['\''] + multiset(s)['\'']
         ==> multiset(Kept(Run(st, s)))['"'] == multiset(Kept(st))['"']
    decreases s
  {
    if s != "" {
      hide Kept, Step, IsSpace;
      assert s == [s[0]] + s[1..];
      StepCounts(st, s[0]);
      RunKeeps(Step(st, s[0]), s[1..]);
    }
  }

  lemma StepCounts(st: Scan, c: char)
    ensures var before, after := multiset(Kept(st)), multiset(Kept(Step(st, c)));
      && after['\''] <= before['\''] + multiset([c])['\'']
      && (st.quote in {None, Some('"')} && after['\''] == before['\''] + multiset([c])['\'']
          ==> Step(st, c).quote in {None, Some('"')} && after['"'] == before['"'])
  {
    hide Kept, IsSpace;
    StepKeeps(st, c);
    if IsQuote(c) && (st.quote.None? || st.quote == Some(c)) { QuoteDropped(st, c); }
  }

  lemma QuoteDropped(st: Scan, c: char)
    requires IsQuote(c) && (st.quote.None? || st.quote == Some(c))
    ensures Kept(Step(st, c)) == Kept(st)
  {
  }

  lemma {:induction false} TailCount(ws: seq<string>)
    ensures multiset(QuoteTail(ws))['\''] == multiset(Concat(ws))['\'']
  {
    if ws != [] {
      hide Quote;
      TailCount(ws[1..]);
      QuoteCount(ws[0]);
      assert ws == [ws[0]] + ws[1..];
      ConcatCons(ws[0], ws[1..]);
    }
  }

  /** Quoting adds no single quote. */
  lemma QuoteCount(w: string)
    ensures multiset(Quote(w))['\''] == multiset(w)['\'']
  {
    EscapeCount(w, false);
  }

  lemma {:induction false} EscapeCount(w: string, hasBackSlash: bool)
    ensures multiset(Escape(w, hasBackSlash))['\''] == multiset(w)['\'']
  {
    if w != "" {
      assert w == [w[0]] + w[1..];
      EscapeCount(w[1..], !hasBackSlash && w[0] == '\\');
    }
  }

  /** A word in single quotes loses them. */
  lemma LosesQuote(st: Scan, w: string, rest: string)
    requires st.quote.None? && w != "" && w[0] == '\''
    ensures multiset(Kept(Run(st, w + rest)))['\''] < multiset(Kept(st))['\''] + multiset(w + rest)['\'']
  {
    hide Kept;
    var s := w + rest;
    assert s == [s[0]] + s[1..];
    QuoteDropped(st, s[0]);
    RunKeeps(Step(st, s[0]), s[1..]);
  }

  lemma {:induction false} TailLoses(st: Scan, ws: seq<string>)
    requires st.quote.None? && !st.isSpace && st.token != ""
    requires forall w | w in ws :: w != "" && '"' !in w
    requires exists w :: w in ws && !Survives(w)
    ensures multiset(Kept(Run(st, QuoteTail(ws))))['\''] < multiset(Kept(st))['\''] + multiset(QuoteTail(ws))['\'']
    decreases ws
  {
    hide Quote, Run;
    var w := ws[0];
    var next := Scan(None, true, "", st.args + [st.token]);
    var rest := QuoteTail(ws[1..]);
    assert w in ws;
    RunOne(st, ' ');
    assert Step(st, ' ') == next;
    StepKeeps(st, ' ');
    assert QuoteTail(ws) == [' '] + (Quote(w) + rest);
    RunConcat(st, [' '], Quote(w) + rest);
    if !Survives(w) {
      BadWord(w);
      LosesQuote(next, w, rest);
    } else {
      var after := Scan(None, false, "" + w, next.args);
      ScanWord(next, w);
      RunConcat(next, Quote(w), rest);
      LaterWord(ws);
      TailLoses(after, ws[1..]);
      QuoteCount(w);
      assert Kept(after) == Kept(next) + w;
      hide Kept, Survives, QuoteTail;
    }
  }

  /** If the first word survives, it is a later one that does not. */
  lemma LaterWord(ws: seq<string>)
    requires ws != [] && Survives(ws[0]) && exists w :: w in ws && !Survives(w)
    ensures exists w :: w in ws[1..] && !Survives(w)
    ensures forall w | w in ws[1..] :: w in ws
  {
    hide Survives;
    var w :| w in ws && !Survives(w);
    assert ws == [ws[0]] + ws[1..];
  }

  lemma BadWord(w: string)
    requires w != "" && '"' !in w && !Survives(w)
    ensures w[0] == '\'' && Quote(w) == w
  {
  }

  // ------------------------------------------------------------ round trip

  lemma QuoteEnds(w: string)
    requires w != ""
    ensures Quote(w) != "" && !IsSpace(Quote(w)[0]) && !IsSpace(Quote(w)[|Quote(w)| - 1])
  {
  }

  lemma {:induction false} TailEnds(ws: seq<string>)
    requires ws != [] && "" !in ws
    ensures var t := QuoteTail(ws); t != "" && !IsSpace(t[|t| - 1])
  {
    QuoteEnds(ws[0]);
    if |ws| > 1 { TailEnds(ws[1..]); }
  }

  lemma LineTrimmed(c: ShellCmd)
    requires "" !in c.Words()
    ensures TrimSpace(QuoteLine(c)) == QuoteLine(c)
  {
    hide Quote, IsSpace, TrimSpace;
    assert c.Words()[0] == c.cmd && c.Words()[1..] == c.args;
    QuoteEnds(c.cmd);
    if c.args != [] { TailEnds(c.args); }
    TrimmedStays(QuoteLine(c));
  }

  /** Words that all survive come back. */
  lemma RoundTripGood(c: ShellCmd)
    requires forall w | w in c.Words() :: w != "" && Survives(w)
    ensures Finish(Run(START, QuoteLine(c))) == c.Words()
  {
    hide Quote, QuoteTail, Run, Survives;
    assert c.Words()[0] == c.cmd && c.cmd in c.Words();
    assert forall w | w in c.args :: w in c.Words();
    ScanWord(START, c.cmd);
    assert "" + c.cmd == c.cmd;
    RunConcat(START, Quote(c.cmd), QuoteTail(c.args));
    ScanTail(Scan(None, false, c.cmd, []), c.args);
    assert [] + [c.cmd] + c.args == c.Words();
  }

  lemma FinishKept(st: Scan)
    ensures Concat(Finish(st)) == Kept(st)
  {
    var args := st.args + [st.token];
    assert args[..|args| - 1] == st.args;
  }

  /** If the words come back, then no single quote was dropped, so none opened. */
  lemma RoundTripOnly(c: ShellCmd)
    requires "" !in c.Words() && Finish(Run(START, QuoteLine(c))) == c.Words()
    ensures forall w | w in c.Words() :: Survives(w)
  {
    hide Quote, QuoteTail, Run, Survives, Finish, Kept;
    var line, end := QuoteLine(c), Run(START, QuoteLine(c));
    FinishKept(end);
    ConcatCons(c.cmd, c.args);
    QuoteCount(c.cmd);
    TailCount(c.args);
    assert Kept(START) == "" by { StartKeepsNothing(); }
    RunKeeps(START, line);
    assert '"' !in multiset(Concat(c.Words()));
    NoneOf(c.Words(), '"');
    if !Survives(c.cmd) {
      assert c.cmd == c.Words()[0];
      BadWord(c.cmd);
      LosesQuote(START, c.cmd, QuoteTail(c.args));
    } else if exists w :: w in c.args && !Survives(w) {
      var after := Scan(None, false, "" + c.cmd, []);
      assert c.Words()[0] == c.cmd && c.cmd in c.Words();
      assert forall w | w in c.args :: w in c.Words();
      ScanWord(START, c.cmd);
      RunConcat(START, Quote(c.cmd), QuoteTail(c.args));
      assert "" + c.cmd == c.cmd;
      TailLoses(after, c.args);
      StartKept(c.cmd);
    }
  }

  lemma StartKept(w: string)
    ensures Kept(Scan(None, false, w, [])) == w
  {
    assert "" + w == w;
  }

  lemma StartKeepsNothing()
    ensures Kept(START) == ""
  {
  }

  lemma {:induction false} NoneOf(ws: seq<string>, ch: char)
    requires ch !in Concat(ws)
    ensures forall w | w in ws :: ch !in w
  {
    if ws != [] {
      NoneOf(ws[..|ws| - 1], ch);
      assert ws == ws[..|ws| - 1] + [ws[|ws| - 1]];
    }
  }

  /** A command of non-empty words comes back from `NewShellCmd` exactly when
      no word contains a double quote and none begins and ends with a single one. */
  lemma QuoteThenParse(c: ShellCmd)
    requires "" !in c.Words()
    ensures Parse(QuoteLine(c)) == c <==> forall w | w in c.Words() :: Survives(w)
  {
    hide QuoteLine, Run, Survives, TrimSpace, Finish;
    LineTrimmed(c);
    assert c.Words()[0] == c.cmd && c.Words()[1..] == c.args;
    var words := Finish(Run(START, QuoteLine(c)));
    assert Parse(QuoteLine(c)) == c <==> words == c.Words() by {
      assert words != [] ==> words == [words[0]] + words[1..];
      assert |words| == 1 ==> words[1..] == [];
    }
    if forall w | w in c.Words() :: Survives(w) {
      assert forall w | w in c.Words() :: w != "";
      RoundTripGood(c);
    }
    if words == c.Words() {
      RoundTripOnly(c);
    }
  }

  /** A letter or a digit of ASCII, by its code, or one of a few signs. */
  predicate NeedsNoQuotes(c: char) {
    var code := c as int;
    48 <= code <= 57 || 65 <= code <= 90 || 97 <= code <= 122 || c in ['%', '+', ',', '-', '.', '/', ':', '=', '@', '_']
  }

  lemma SignsAre(c: char)
    ensures c in ":/%,.@+=_-" <==> c in ['%', '+', ',', '-', '.', '/', ':', '=', '@', '_']
  {
    assert ":/%,.@+=_-" == [':', '/', '%', ',', '.', '@', '+', '=', '_', '-'];
  }

  /** Exactly which words are written as they are: those that begin and end with the same quote
      already, and those of letters, digits and a few signs; the others get double quotes. */
  lemma QuotedExactly(w: string)
    requires w != ""
    ensures Quote(w) == w <==> Bookended(w) || forall c | c in w :: NeedsNoQuotes(c)
    ensures Quote(w) != w ==> Quote(w)[0] == '"' == Quote(w)[|Quote(w)| - 1] && |Quote(w)| >= |w| + 2
  {
    EscapeLonger(w, false);
    hide Escape;
    forall k | 0 <= k < |w|
      ensures NeedsNoQuotes(w[k]) <==>
              '0' <= w[k] <= '9' || 'a' <= w[k] <= 'z' || 'A' <= w[k] <= 'Z' || w[k] in ":/%,.@+=_-" {
      SignsAre(w[k]);
    }
    hide NeedsNoQuotes;
    assert (forall c | c in w :: NeedsNoQuotes(c)) <==> forall k | 0 <= k < |w| :: NeedsNoQuotes(w[k]);
  }

  lemma {:induction false} EscapeLonger(s: string, hasBackSlash: bool)
    ensures |Escape(s, hasBackSlash)| >= |s|
  {
    if s != "" { EscapeLonger(s[1..], !hasBackSlash && s[0] == '\\'); }
  }

  // ------------------------------------------------------- any line of words

  /** A stretch of a word: bare, or between two quotes of one kind. */
  datatype Part = Bare(text: string) | Quoted(quote: char, text: string) {
    predicate Spells() {
      match this
      case Bare(text) => text != "" && forall k | 0 <= k < |text| :: !IsQuote(text[k]) && !IsSpace(text[k])
      case Quoted(quote, text) => IsQuote(quote) && quote !in text
    }

    function Written(): string {
      if Bare? then text else [quote] + text + [quote]
    }
  }

  type Word = seq<Part>

  ghost predicate Spells(w: Word) {
    w != [] && forall part | part in w :: part.Spells()
  }

  function Written(w: Word): string {
    if w == [] then "" else w[0].Written() + Written(w[1..])
  }

  /** The word without its quotes. */
  function Meaning(w: Word): string {
    if w == [] then "" else w[0].text + Meaning(w[1..])
  }

  /** A word, and the white space before it. */
  datatype Spaced = Spaced(gap: string, word: Word)

  ghost predicate IsGap(gap: string) {
    gap != "" && AllSpace(gap)
  }

  function WrittenAll(rest: seq<Spaced>): string {
    if rest == [] then "" else rest[0].gap + Written(rest[0].word) + WrittenAll(rest[1..])
  }

  function MeaningAll(rest: seq<Spaced>): seq<string> {
    if rest == [] then [] else [Meaning(rest[0].word)] + MeaningAll(rest[1..])
  }

  lemma {:induction false} ScanInside(st: Scan, text: string)
    requires st.quote.Some? && st.quote.value !in text
    ensures Run(st, text) == st.(token := st.token + text)
    decreases text
  {
    if text != "" {
      ScanInside(Step(st, text[0]), text[1..]);
      assert st.token + [text[0]] + text[1..] == st.token + text;
    }
  }

  lemma ScanPart(st: Scan, part: Part)
    requires part.Spells() && st.quote.None?
    ensures Run(st, part.Written()) == Scan(None, false, st.token + part.text, st.args)
  {
    hide Run, IsSpace;
    if part.Bare? {
      ScanPlain(st, part.text);
    } else {
      var q, text := part.quote, part.text;
      var open := Scan(Some(q), false, st.token, st.args);
      RunOne(st, q);
      RunConcat(st, [q], text);
      ScanInside(open, text);
      RunConcat(st, [q] + text, [q]);
      RunOne(open.(token := st.token + text), q);
    }
  }

  lemma {:induction false} ScanParts(st: Scan, w: Word)
    requires Spells(w) && st.quote.None?
    ensures Run(st, Written(w)) == Scan(None, false, st.token + Meaning(w), st.args)
    decreases w
  {
    hide Run, Part.Written, Part.Spells;
    assert w[0] in w;
    var rest := w[1..];
    ScanPart(st, w[0]);
    RunConcat(st, w[0].Written(), Written(rest));
    var next := Scan(None, false, st.token + w[0].text, st.args);
    if rest == [] {
      assert Written(rest) == "" && Meaning(rest) == "";
      assert w[0].Written() + "" == w[0].Written() && w[0].text + "" == w[0].text;
    } else {
      assert forall part | part in rest :: part in w;
      ScanParts(next, rest);
      assert st.token + w[0].text + Meaning(rest) == st.token + (w[0].text + Meaning(rest));
    }
  }

  lemma {:induction false} SkipGap(st: Scan, gap: string)
    requires st.quote.None? && st.isSpace && AllSpace(gap)
    ensures Run(st, gap) == st
    decreases gap
  {
    hide IsSpace;
    if gap != "" {
      assert !IsQuote(gap[0]) by { QuoteNoSpace(gap[0]); }
      SkipGap(st, gap[1..]);
    }
  }

  lemma QuoteNoSpace(c: char)
    ensures IsQuote(c) ==> !IsSpace(c)
  {
  }

  lemma ScanGap(st: Scan, gap: string)
    requires st.quote.None? && !st.isSpace && IsGap(gap)
    ensures Run(st, gap) == Scan(None, true, "", st.args + [st.token])
  {
    hide IsSpace;
    QuoteNoSpace(gap[0]);
    SkipGap(Step(st, gap[0]), gap[1..]);
  }

  lemma {:induction false} ScanSpaced(st: Scan, rest: seq<Spaced>)
    requires st.quote.None? && !st.isSpace
    requires forall x | x in rest :: IsGap(x.gap) && Spells(x.word)
    ensures var end := Run(st, WrittenAll(rest)); end.args + [end.token] == st.args + [st.token] + MeaningAll(rest)
    decreases rest
  {
    hide Written, Meaning, Spells, IsGap, Step;
    if rest == [] {
      assert Run(st, "") == st;
      assert st.args + [st.token] + [] == st.args + [st.token];
    } else {
      hide Run;
      var x, more := rest[0], rest[1..];
      assert x in rest && forall y | y in more :: y in rest;
      ScanGap(st, x.gap);
      var between := Scan(None, true, "", st.args + [st.token]);
      ScanParts(between, x.word);
      assert "" + Meaning(x.word) == Meaning(x.word);
      var next := Scan(None, false, Meaning(x.word), between.args);
      RunConcat(st, x.gap, Written(x.word));
      RunConcat(st, x.gap + Written(x.word), WrittenAll(more));
      ScanSpaced(next, more);
      assert st.args + [st.token] + [Meaning(x.word)] + MeaningAll(more)
          == st.args + [st.token] + ([Meaning(x.word)] + MeaningAll(more));
    }
  }

  /** Any line of words is taken apart where there is white space outside quotes, however much of
      it; the quotes go, and what is in them stays as it is.  Only a last word that is empty is lost. */
  lemma ParseWords(before: string, first: Word, rest: seq<Spaced>, after: string)
    requires AllSpace(before) && AllSpace(after)
    requires Spells(first) && forall x | x in rest :: IsGap(x.gap) && Spells(x.word)
    ensures var words := [Meaning(first)] + MeaningAll(rest);
            var last := |words| - 1;
            Parse(before + (Written(first) + WrittenAll(rest)) + after)
            == FromWords(if words[last] == "" then words[..last] else words)
  {
    hide Written, WrittenAll, Meaning, MeaningAll, Spells, IsGap, TrimSpace, Run, FromWords;
    var line := Written(first) + WrittenAll(rest);
    TrimPad(before, line, after);
    SpacedTrimmed(first, rest);
    TrimmedStays(line);
    ScanParts(START, first);
    assert "" + Meaning(first) == Meaning(first);
    RunConcat(START, Written(first), WrittenAll(rest));
    ScanSpaced(Scan(None, false, Meaning(first), []), rest);
    var end, words := Run(START, line), [Meaning(first)] + MeaningAll(rest);
    assert [] + [Meaning(first)] + MeaningAll(rest) == words;
    assert words == end.args + [end.token];
    assert words[..|words| - 1] == end.args && words[|words| - 1] == end.token;
  }

  lemma {:induction false} WrittenEnds(w: Word)
    requires Spells(w)
    ensures var s := Written(w); s != "" && !IsSpace(s[0]) && !IsSpace(s[|s| - 1])
    decreases w
  {
    hide IsSpace;
    assert w[0] in w;
    var part := w[0].Written();
    assert part != "" && !IsSpace(part[0]) && !IsSpace(part[|part| - 1]) by {
      if w[0].Quoted? { QuoteNoSpace(w[0].quote); }
    }
    if |w| > 1 {
      assert forall part | part in w[1..] :: part in w;
      WrittenEnds(w[1..]);
    } else {
      assert Written(w[1..]) == "" && part + "" == part;
    }
  }

  lemma {:induction false} SpacedTrimmed(first: Word, rest: seq<Spaced>)
    requires Spells(first) && forall x | x in rest :: IsGap(x.gap) && Spells(x.word)
    ensures Trimmed(Written(first) + WrittenAll(rest))
    decreases |rest|
  {
    hide IsSpace, Spells, IsGap, Written, Trimmed;
    WrittenEnds(first);
    if rest == [] {
      assert Written(first) + "" == Written(first);
      EndsTrimmed(Written(first), "", Written(first));
    } else {
      assert rest[0] in rest && forall x | x in rest[1..] :: x in rest;
      SpacedTrimmed(rest[0].word, rest[1..]);
      WrittenEnds(rest[0].word);
      var more := Written(rest[0].word) + WrittenAll(rest[1..]);
      assert WrittenAll(rest) == rest[0].gap + more;
      assert more != "" && !IsSpace(more[|more| - 1]) by { LastTrimmed(more); }
      EndsTrimmed(Written(first), rest[0].gap, more);
      assert Written(first) + WrittenAll(rest) == Written(first) + rest[0].gap + more;
    }
  }

  lemma LastTrimmed(s: string)
    requires Trimmed(s) && s != ""
    ensures !IsSpace(s[|s| - 1])
  {
  }

  lemma EndsTrimmed(a: string, gap: string, b: string)
    requires a != "" && b != "" && !IsSpace(a[0]) && !IsSpace(b[|b| - 1])
    ensures Trimmed(a + gap + b) && (gap == "" && a == b ==> Trimmed(a))
  {
    hide IsSpace;
  }

  // --------------------------------------------------------------- escaping

  /** No double quote that is not escaped. */
  predicate Closed(s: string, hasBackSlash: bool) {
    s != "" ==>
      && (s[0] == '"' ==> hasBackSlash)
      && Closed(s[1..], !hasBackSlash && s[0] == '\\')
  }

  function WithoutBackSlashes(s: string): string {
    if s == "" then "" else (if s[0] == '\\' then "" else [s[0]]) + WithoutBackSlashes(s[1..])
  }

  /** Escaping leaves no double quote open, adds nothing but backslashes, and nothing at all
      where none is open. */
  lemma {:induction false} EscapeCloses(s: string, hasBackSlash: bool)
    ensures Closed(Escape(s, hasBackSlash), hasBackSlash)
    ensures WithoutBackSlashes(Escape(s, hasBackSlash)) == WithoutBackSlashes(s)
    ensures Closed(s, hasBackSlash) ==> Escape(s, hasBackSlash) == s
  {
    if s != "" {
      var next := !hasBackSlash && s[0] == '\\';
      EscapeCloses(s[1..], next);
      var rest := Escape(s[1..], next);
      assert ([s[0]] + rest)[1..] == rest;
      assert s == [s[0]] + s[1..];
      if !hasBackSlash && s[0] == '"' {
        var q := ['\\', '"'] + rest;
        assert q[1..] == ['"'] + rest && q[1..][1..] == rest;
      }
    }
  }

  /** Two words that do not come back. */
  lemma QuotesAreLost()
    ensures Parse(QuoteLine(ShellCmd("'a'", []))) != ShellCmd("'a'", [])
    ensures Parse(QuoteLine(ShellCmd("a\"b", []))) != ShellCmd("a\"b", [])
  {
    hide Parse, QuoteLine;
    var c, d := ShellCmd("'a'", []), ShellCmd("a\"b", []);
    assert c.Words() == ["'a'"] && d.Words() == ["a\"b"];
    assert c.Words()[0] == "'a'" && d.Words()[0] == "a\"b";
    assert "a\"b"[1] == '"';
    assert "'a'" in c.Words() && !Survives("'a'");
    assert "a\"b" in d.Words() && !Survives("a\"b");
    QuoteThenParse(c);
    QuoteThenParse(d);
  }
}
