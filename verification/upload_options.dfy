/** cmd/upload.go: the edit script of `git repo upload`, written by `Export` and
    read back by `LoadFromText`.  Strings are sequences of runes. */
module UploadScript {
  import opened Text

  datatype Section = Title | Description | Issue | Reviewer | Cc | Draft | Private

  datatype Options = Options(title: string, description: string, issue: string, reviewers: seq<string>,
                             cc: seq<string>, draft: bool, private: bool)

  const FRESH := Options("", "", "", [], [], false, false)

  // ---------------------------------------------------------- section lines

  /** `\s` of the regular expression. */
  predicate IsBlank(c: char): (blank: bool)
    ensures blank <==> c as int in {9, 10, 12, 13, 32}
  {
    c in "\t\n\U{000C}\r "
  }

  function SkipBlanks(s: string): (r: string)
    ensures |r| <= |s|
    ensures r != "" ==> !IsBlank(r[0])
  {
    if s != "" && IsBlank(s[0]) then SkipBlanks(s[1..]) else s
  }

  /** `(\s*:.*)?$` */
  predicate IsTail(s: string) {
    s == "" || (SkipBlanks(s) != "" && SkipBlanks(s)[0] == ':')
  }

  /** `(\S+?)\]` and the tail: the shortest name of at least `n` characters. */
  function NameFrom(s: string, n: nat): Option<string>
    requires n <= |s|
    decreases |s| - n
  {
    if n == |s| then None
    else if n > 0 && s[n] == ']' && IsTail(s[n + 1..]) then Some(s[..n])
    else if IsBlank(s[n]) then None
    else NameFrom(s, n + 1)
  }

  /** `reEditSection`, for a line without a line feed. */
  function MatchSection(line: string): Option<string> {
    if line == "" || line[0] != '#' then None
    else
      var rest := SkipBlanks(line[1..]);
      if |rest| == |line| - 1 || rest == "" || rest[0] != '[' then None else NameFrom(rest[1..], 0)
  }

  /** `unicode.ToLower`, as far as it gives ASCII letters. */
  function LowerChar(c: char): char {
    if 'A' <= c <= 'Z' then c + 32 as char
    else if c == '\U{0130}' then 'i'
    else if c == '\U{212A}' then 'k'
    else c
  }

  function ToLower(s: string): string {
    seq(|s|, i requires 0 <= i < |s| => LowerChar(s[i]))
  }

  function Lookup(name: string): Option<Section> {
    if name == "title" then Some(Title)
    else if name == "description" then Some(Description)
    else if name == "issue" then Some(Issue)
    else if name == "reviewer" then Some(Reviewer)
    else if name == "cc" then Some(Cc)
    else if name == "draft" then Some(Draft)
    else if name == "private" then Some(Private)
    else None
  }

  /** The section a line opens. */
  function Opens(line: string): Option<Section> {
    var m := MatchSection(line);
    if m.Some? then Lookup(ToLower(m.value)) else None
  }

  // ---------------------------------------------------------------- loading

  predicate EndsBlank(s: string) {
    s != "" && s[|s| - 1] in " \t"
  }

  /** `strings.TrimRight(line, " \t")` */
  function TrimBlanks(s: string): string {
    if EndsBlank(s) then TrimBlanks(s[..|s| - 1]) else s
  }

  /** What a section's text, trimmed and not empty, does to the options. */
  function Put(o: Options, section: Section, text: string): Options {
    if text == "" then o
    else
      match section
      case Title => o.(title := Split(text, '\n')[0])
      case Description => o.(description := text)
      case Issue => o.(issue := Join(Split(text, '\n'), ','))
      case Reviewer => o.(reviewers := Split(text, '\n'))
      case Cc => o.(cc := Split(text, '\n'))
      case Draft => var b := ToBool(text); if b.Some? then o.(draft := b.value) else o
      case Private => var b := ToBool(text); if b.Some? then o.(private := b.value) else o
  }

  function ToBool(text: string): Option<bool> {
    if text in ["y", "yes", "on", "t", "true", "1"] then Some(true)
    else if text in ["n", "no", "off", "f", "false", "0"] then Some(false)
    else None
  }

  datatype Scan = Scan(section: Option<Section>, text: string, o: Options)

  function Flush(sc: Scan): Options {
    if sc.section.Some? then Put(sc.o, sc.section.value, TrimSpace(sc.text)) else sc.o
  }

  function Step(sc: Scan, rawLine: string): Scan {
    var line := TrimBlanks(rawLine);
    if Opens(line).Some? then Scan(Opens(line), "", Flush(sc))
    else if line != "" && line[0] == '#' then sc
    else if sc.section.Some? then sc.(text := sc.text + line + "\n")
    else sc
  }

  function Run(sc: Scan, lines: seq<string>): Scan
    decreases lines
  {
    if lines == [] then sc else Run(Step(sc, lines[0]), lines[1..])
  }

  function Load(data: string, o: Options): Options {
    Flush(Run(Scan(None, "", o), Split(data, '\n')))
  }

  // -------------------------------------------------------------- exporting

  function Name(s: Section): string {
    match s
    case Title => "Title"
    case Description => "Description"
    case Issue => "Issue"
    case Reviewer => "Reviewer"
    case Cc => "Cc"
    case Draft => "Draft"
    case Private => "Private"
  }

  function HelpOpening(s: Section): string {
    match s
    case Title => "one line "
    case Draft => "a boolean (yes/no, "
    case Private => "a boolean (yes/no, "
    case _ => "multiple lines "
  }

  function HelpLead(s: Section): string {
    match s
    case Title => "message below "
    case Description => "of text "
    case Issue => "of issue IDs "
    case Reviewer => "of user names "
    case Cc => "of user names "
    case Draft => "or true/false) "
    case Private => "or true/false) "
  }

  function HelpTail(s: Section): string {
    match s
    case Title => "as the title of "
    case Description => "as the description of "
    case Issue => "for cross "
    case Reviewer => "as the reviewers for "
    case Cc => "as the watchers for "
    case Draft => "to turn on/off draft "
    case Private => "to turn on/off private "
  }

  function HelpEnd(s: Section): string {
    if s == Issue then "references" else if s == Draft || s == Private then "mode" else "code review"
  }

  function Help(s: Section): string {
    HelpOpening(s) + HelpLead(s) + HelpTail(s) + HelpEnd(s)
  }

  /** `%-*s`: blanks after `s` up to `width` characters. */
  function Pad(s: string, width: nat): string {
    if |s| < width then s + seq(width - |s|, _ => ' ') else s
  }

  function Header(s: Section): string {
    "# " + Pad("[" + Name(s) + "]", 13) + " : " + Help(s)
  }

  /** The lines that stand for an option. */
  function Body(o: Options, s: Section): seq<string> {
    match s
    case Title => if o.title == "" then [] else [o.title]
    case Description => if o.description == "" then [] else Split(o.description, '\n')
    case Issue => if o.issue == "" then [] else [o.issue]
    case Reviewer => o.reviewers
    case Cc => o.cc
    case Draft => if o.draft then ["yes"] else []
    case Private => if o.private then ["yes"] else []
  }

  function SectionLines(s: Section, body: seq<string>): seq<string> {
    if body == [] then [Header(s), ""] else [Header(s), ""] + body + [""]
  }

  function ExportOf(o: Options, sections: seq<Section>): seq<string> {
    if sections == [] then []
    else SectionLines(sections[0], Body(o, sections[0])) + ExportOf(o, sections[1..])
  }

  const SECTIONS := [Title, Description, Issue, Reviewer, Cc, Draft, Private]

  /** A published review keeps its title and description. */
  function Sections(published: bool): seq<Section> {
    if published then SECTIONS[2..] else SECTIONS
  }

  function ExportScript(o: Options, published: bool): seq<string> {
    ExportOf(o, Sections(published))
  }

  lemma {:induction false} ExportSnoc(o: Options, sections: seq<Section>, s: Section)
    ensures ExportOf(o, sections + [s]) == ExportOf(o, sections) + SectionLines(s, Body(o, s))
  {
    hide SectionLines, Body;
    if sections == [] {
      assert (sections + [s])[1..] == [];
    } else {
      assert (sections + [s])[1..] == sections[1..] + [s];
      ExportSnoc(o, sections[1..], s);
    }
  }

  // -------------------------------------------------------------- the class

  class UploadOptions {
    var title: string
    var description: string
    var issue: string
    var reviewers: seq<string>
    var cc: seq<string>
    var draft: bool
    var private: bool

    function Value(): Options
      reads this
    {
      Options(title, description, issue, reviewers, cc, draft, private)
    }

    constructor ()
      ensures Value() == FRESH
    {
      title, description, issue, reviewers, cc, draft, private := "", "", "", [], [], false, false;
    }

    method SetUploadOption(section: Section, rawText: string)
      modifies this
      ensures Value() == Put(old(Value()), section, TrimSpace(rawText))
    {
      hide TrimSpace, Split, Join;
      var text := TrimSpace(rawText);
      if text == "" { return; }
      match section
      case Title =>
        text := Split(text, '\n')[0];
        title := text;
      case Description => description := text;
      case Issue => issue := Join(Split(text, '\n'), ',');
      case Reviewer => reviewers := Split(text, '\n');
      case Cc => cc := Split(text, '\n');
      case Draft =>
        if text in ["y", "yes", "on", "t", "true", "1"] {
          draft := true;
        } else if text in ["n", "no", "off", "f", "false", "0"] {
          draft := false;
        }
      case Private =>
        if text in ["y", "yes", "on", "t", "true", "1"] {
          private := true;
        } else if text in ["n", "no", "off", "f", "false", "0"] {
          private := false;
        }
    }

    method LoadFromText(data: string)
      modifies this
      ensures Value() == Load(data, old(Value()))
    {
      hide Split, TrimSpace, TrimBlanks, Put, MatchSection, Lookup, ToLower, Value;
      var section: Option<Section> := None;
      var text := "";
      var lines := Split(data, '\n');
      for i := 0 to |lines|
        invariant Run(Scan(section, text, Value()), lines[i..]) == Run(Scan(None, "", old(Value())), lines)
      {
        assert lines[i..][1..] == lines[i + 1..];
        var line := TrimBlanks(lines[i]);
        var m := MatchSection(line);
        if m.Some? {
          var name := Lookup(ToLower(m.value));
          if name.Some? {
            if section.Some? { SetUploadOption(section.value, text); }
            section := name;
            text := "";
            continue;
          }
        }
        if line != "" && line[0] == '#' { continue; }
        if section.Some? { text := text + line + "\n"; }
      }
      if section.Some? { SetUploadOption(section.value, text); }
    }

    method Export(published: bool) returns (script: seq<string>)
      ensures script == ExportScript(Value(), published)
    {
      hide Split, ExportOf, SectionLines;
      ghost var o := Value();
      ghost var done: seq<Section> := [];
      script := [];
      assert ExportOf(o, []) == [] by { Nothing(o); }
      if !published {
        script := AppendSection(o, done, script, Title, if title != "" then [title] else []);
        done := done + [Title];
        script := AppendSection(o, done, script, Description,
                                if description != "" then Split(description, '\n') else []);
        done := done + [Description];
      }
      script := AppendSection(o, done, script, Issue, if issue != "" then [issue] else []);
      done := done + [Issue];
      script := AppendSection(o, done, script, Reviewer, reviewers);
      done := done + [Reviewer];
      script := AppendSection(o, done, script, Cc, cc);
      done := done + [Cc];
      script := AppendSection(o, done, script, Draft, if draft then ["yes"] else []);
      done := done + [Draft];
      script := AppendSection(o, done, script, Private, if private then ["yes"] else []);
      assert done + [Private] == Sections(published);
    }
  }

  /** A heading, the lines of the option between empty ones, and `done` grows by `s`. */
  method AppendSection(ghost o: Options, ghost done: seq<Section>, script: seq<string>, s: Section, body: seq<string>)
    returns (extended: seq<string>)
    requires script == ExportOf(o, done) && body == Body(o, s)
    ensures extended == ExportOf(o, done + [s])
  {
    hide Header, ExportOf, Body;
    extended := script + [Header(s)];
    if |body| > 0 {
      extended := extended + [""];
      extended := extended + body;
    }
    extended := extended + [""];
    ExportSnoc(o, done, s);
  }

  lemma Nothing(o: Options)
    ensures ExportOf(o, []) == []
  {
  }

  // -------------------------------------------------- what a section becomes

  /** Comes through the loop unchanged: no blank at the end, no line feed. */
  predicate Neat(line: string) {
    !EndsBlank(line) && '\n' !in line
  }

  predicate Hash(line: string) {
    line != "" && line[0] == '#'
  }

  /** What every line but the first of a loaded option is like. */
  predicate NeatBody(body: seq<string>) {
    && (forall k | 0 <= k < |body| :: Neat(body[k]))
    && (forall k | 1 <= k < |body| :: !Hash(body[k]))
  }

  predicate HashFirst(body: seq<string>) {
    body != [] && Hash(body[0])
  }

  function Terminate(lines: seq<string>): string {
    if lines == [] then "" else lines[0] + "\n" + Terminate(lines[1..])
  }

  lemma {:induction false} RunConcat(sc: Scan, a: seq<string>, b: seq<string>)
    ensures Run(sc, a + b) == Run(Run(sc, a), b)
    decreases a
  {
    hide Step;
    if a == [] {
      assert a + b == b;
    } else {
      assert (a + b)[1..] == a[1..] + b;
      RunConcat(Step(sc, a[0]), a[1..], b);
    }
  }

  lemma RunCons(sc: Scan, line: string, rest: seq<string>)
    ensures Run(sc, [line] + rest) == Run(Step(sc, line), rest)
  {
    assert ([line] + rest)[1..] == rest;
  }

  lemma {:induction false} RunPlain(sc: Scan, body: seq<string>)
    requires sc.section.Some? && forall k | 0 <= k < |body| :: Neat(body[k]) && !Hash(body[k])
    ensures Run(sc, body) == sc.(text := sc.text + Terminate(body))
    decreases body
  {
    if body == [] {
      assert sc.text + "" == sc.text;
    } else {
      hide Flush, Opens;
      PlainStep(sc, body[0]);
      RunPlain(Step(sc, body[0]), body[1..]);
      assert sc.text + body[0] + "\n" + Terminate(body[1..]) == sc.text + (body[0] + "\n" + Terminate(body[1..]));
    }
  }

  lemma PlainStep(sc: Scan, line: string)
    requires sc.section.Some? && Neat(line) && !Hash(line)
    ensures Step(sc, line) == sc.(text := sc.text + line + "\n")
  {
    assert TrimBlanks(line) == line;
    assert MatchSection(line).None?;
  }

  lemma HashStep(sc: Scan, line: string)
    requires Neat(line) && Hash(line)
    ensures Step(sc, line) == if Opens(line).Some? then Scan(Opens(line), "", Flush(sc)) else sc
  {
    hide Opens, Flush;
    assert TrimBlanks(line) == line;
  }

  // ---------------------------------------------------------------- headings

  lemma {:induction false} NameFound(name: string, tail: string, n: nat)
    requires name != "" && n <= |name| && IsTail(tail)
    requires forall k | 0 <= k < |name| :: !IsBlank(name[k]) && name[k] != ']'
    ensures NameFrom(name + "]" + tail, n) == Some(name)
    decreases |name| - n
  {
    hide IsTail, IsBlank;
    var s := name + "]" + tail;
    if n < |name| {
      assert s[n] == name[n];
      NameFound(name, tail, n + 1);
    } else {
      assert s[n] == ']' && s[n + 1..] == tail && s[..n] == name;
    }
  }

  lemma {:induction false} BlanksThenColon(n: nat, rest: string)
    ensures IsTail(seq(n, _ => ' ') + " : " + rest)
  {
    var s := seq(n, _ => ' ') + " : " + rest;
    if n == 0 {
      assert s == " : " + rest && s[1..][0] == ':';
    } else {
      BlanksThenColon(n - 1, rest);
      assert s[1..] == seq(n - 1, _ => ' ') + " : " + rest;
    }
  }

  lemma NameIsWord(s: Section)
    ensures Name(s) != "" && forall k | 0 <= k < |Name(s)| :: !IsBlank(Name(s)[k]) && Name(s)[k] != ']'
  {
  }

  lemma NameIsKnown(s: Section)
    ensures Lookup(ToLower(Name(s))) == Some(s)
  {
    match s
    case Title => assert ToLower("Title") == "title";
    case Description => assert ToLower("Description") == "description";
    case Issue => assert ToLower("Issue") == "issue";
    case Reviewer => assert ToLower("Reviewer") == "reviewer";
    case Cc => assert ToLower("Cc") == "cc";
    case Draft => assert ToLower("Draft") == "draft";
    case Private => assert ToLower("Private") == "private";
  }

  lemma NameIsLine(s: Section)
    ensures '\n' !in Name(s)
  {
    NameIsWord(s);
    assert IsBlank('\n');
  }

  lemma OpeningIsLine(s: Section)
    ensures '\n' !in HelpOpening(s)
  {
  }

  lemma LeadIsLine(s: Section)
    ensures '\n' !in HelpLead(s)
  {
  }

  lemma TailIsLine(s: Section)
    ensures '\n' !in HelpTail(s)
  {
  }

  lemma EndIsLine(s: Section)
    ensures '\n' !in HelpEnd(s) && HelpEnd(s) != "" && !EndsBlank(HelpEnd(s))
  {
  }

  lemma HelpIsLine(s: Section)
    ensures '\n' !in Help(s) && Help(s) != "" && !EndsBlank(Help(s))
  {
    hide HelpOpening, HelpLead, HelpTail, HelpEnd;
    OpeningIsLine(s);
    LeadIsLine(s);
    TailIsLine(s);
    EndIsLine(s);
  }

  lemma MatchHeading(name: string, tail: string)
    requires name != "" && IsTail(tail)
    requires forall k | 0 <= k < |name| :: !IsBlank(name[k]) && name[k] != ']'
    ensures MatchSection("# [" + name + "]" + tail) == Some(name)
  {
    hide NameFrom, IsTail;
    var line, bracketed := "# [" + name + "]" + tail, "[" + (name + "]" + tail);
    NameFound(name, tail, 0);
    assert line[1..] == " " + bracketed;
    assert line[1..][1..] == bracketed && bracketed[1..] == name + "]" + tail;
    assert SkipBlanks(bracketed) == bracketed;
    assert SkipBlanks(line[1..]) == bracketed;
  }

  /** Every heading that `Export` writes opens its section. */
  lemma HeaderOpens(s: Section)
    ensures Neat(Header(s)) && Hash(Header(s)) && Opens(Header(s)) == Some(s)
  {
    hide Lookup, ToLower, MatchSection, IsTail, Name, Help, IsBlank;
    NameIsWord(s);
    NameIsKnown(s);
    NameIsLine(s);
    HelpIsLine(s);
    var name := Name(s);
    var bracketed := "[" + name + "]";
    var gap: string := seq(if |bracketed| < 13 then 13 - |bracketed| else 0, _ => ' ');
    var tail := gap + " : " + Help(s);
    BlanksThenColon(|gap|, Help(s));
    assert gap == seq(|gap|, _ => ' ');
    MatchHeading(name, tail);
    var line := Header(s);
    assert line == "# [" + name + "]" + tail;
    assert line[|line| - 1] == Help(s)[|Help(s)| - 1];
  }

  // --------------------------------------------------- one section at a time

  /** The section that the text after the first line goes to. */
  function Target(s: Section, body: seq<string>): Section {
    if HashFirst(body) && Opens(body[0]).Some? then Opens(body[0]).value else s
  }

  /** The lines that count: a first line with '#' does not. */
  function Counted(body: seq<string>): seq<string> {
    if HashFirst(body) then body[1..] else body
  }

  lemma {:induction false} TerminateJoin(body: seq<string>)
    requires body != []
    ensures Terminate(body) == Join(body, '\n') + "\n"
  {
    if |body| > 1 {
      TerminateJoin(body[1..]);
    } else {
      assert body[1..] == [];
    }
  }

  /** The text collected for a body trims to the body's lines, joined. */
  lemma TextTrims(pre: string, body: seq<string>)
    requires pre == "" || pre == "\n"
    ensures TrimSpace(pre + Terminate(body) + "\n") == TrimSpace(Join(body, '\n'))
  {
    hide IsSpace, TrimSpace;
    assert IsSpace('\n') by { LineFeedIsSpace(); }
    assert AllSpace(pre) && AllSpace("\n") && AllSpace("\n" + "\n");
    if body == [] {
      assert pre + Terminate(body) + "\n" == pre + "" + "\n";
      TrimPad(pre, "", "\n");
    } else {
      TerminateJoin(body);
      assert pre + Terminate(body) + "\n" == pre + Join(body, '\n') + ("\n" + "\n");
      TrimPad(pre, Join(body, '\n'), "\n" + "\n");
    }
  }

  lemma LineFeedIsSpace()
    ensures IsSpace('\n')
  {
  }

  /** Reading the lines of a section stores what came before and collects its text. */
  lemma SectionRun(sc: Scan, s: Section, body: seq<string>)
    requires NeatBody(body)
    ensures var end := Run(sc, SectionLines(s, body));
      && end.section == Some(Target(s, body)) && end.o == Flush(sc)
      && TrimSpace(end.text) == TrimSpace(Join(Counted(body), '\n'))
  {
    hide TrimSpace, Opens, Header, Run, Join, Neat;
    HeaderOpens(s);
    HashStep(sc, Header(s));
    var start := Scan(Some(s), "", Flush(sc));
    assert Neat("") by { EmptyIsNeat(); }
    PlainStep(start, "");
    var begun := start.(text := "\n");
    assert "" + "" + "\n" == "\n";
    RunCons(sc, Header(s), [""] + body + [""]);
    if body == [] {
      assert SectionLines(s, body) == [Header(s)] + [""];
      RunCons(sc, Header(s), [""]);
      RunOne(start, "");
      TextTrims("", []);
    } else {
      assert SectionLines(s, body) == [Header(s)] + ([""] + (body + [""]));
      RunCons(sc, Header(s), [""] + (body + [""]));
      RunCons(start, "", body + [""]);
      BodyRun(begun, s, body);
    }
  }

  lemma EmptyIsNeat()
    ensures Neat("")
  {
  }

  lemma RunOne(sc: Scan, line: string)
    ensures Run(sc, [line]) == Step(sc, line)
  {
    assert [line][1..] == [];
  }

  lemma BodyRun(sc: Scan, s: Section, body: seq<string>)
    requires sc.section == Some(s) && sc.text == "\n" && body != [] && NeatBody(body)
    ensures var end := Run(sc, body + [""]);
      && end.section == Some(Target(s, body)) && end.o == sc.o
      && TrimSpace(end.text) == TrimSpace(Join(Counted(body), '\n'))
  {
    hide TrimSpace, Opens, Run, Join, Put, Neat;
    assert Neat("") by { EmptyIsNeat(); }
    if HashFirst(body) {
      var rest := body[1..];
      assert body + [""] == [body[0]] + (rest + [""]);
      RunCons(sc, body[0], rest + [""]);
      HashStep(sc, body[0]);
      NothingToFlush(sc);
      var next := Step(sc, body[0]);
      PlainRest(next, rest);
      TextTrims(next.text, rest);
    } else {
      PlainRest(sc, body);
      TextTrims("\n", body);
    }
  }

  lemma NothingToFlush(sc: Scan)
    requires sc.text == "\n"
    ensures Flush(sc) == sc.o
  {
    assert TrimSpace("\n") == "" by {
      assert "\n"[1..] == "";
    }
  }

  lemma PlainRest(sc: Scan, body: seq<string>)
    requires sc.section.Some? && forall k | 0 <= k < |body| :: Neat(body[k]) && !Hash(body[k])
    ensures Run(sc, body + [""]) == sc.(text := sc.text + Terminate(body) + "\n")
  {
    hide Run, Neat, Flush;
    RunPlain(sc, body);
    RunConcat(sc, body, [""]);
    var end := Run(sc, body);
    EmptyIsNeat();
    RunOne(end, "");
    PlainStep(end, "");
    assert end.text + "" + "\n" == end.text + "\n";
  }

  // --------------------------------------------------------- the whole script

  /** What reading the section of `s` in an export of `o` does to `t`. */
  function Effect(o: Options, t: Options, s: Section): Options {
    Put(t, Target(s, Body(o, s)), TrimSpace(Join(Counted(Body(o, s)), '\n')))
  }

  function EffectAll(o: Options, t: Options, sections: seq<Section>): Options
    decreases sections
  {
    if sections == [] then t else EffectAll(o, Effect(o, t, sections[0]), sections[1..])
  }

  ghost predicate NeatOptions(o: Options) {
    forall s: Section :: NeatBody(Body(o, s))
  }

  lemma {:induction false} RunSections(sc: Scan, o: Options, sections: seq<Section>)
    requires NeatOptions(o)
    ensures Flush(Run(sc, ExportOf(o, sections))) == EffectAll(o, Flush(sc), sections)
    decreases sections
  {
    hide Run, SectionLines, Body, NeatBody, Put, Target, Counted, TrimSpace;
    if sections == [] {
      RunNothing(sc);
    } else {
      var s := sections[0];
      SectionRun(sc, s, Body(o, s));
      RunConcat(sc, SectionLines(s, Body(o, s)), ExportOf(o, sections[1..]));
      RunSections(Run(sc, SectionLines(s, Body(o, s))), o, sections[1..]);
    }
  }

  lemma RunNothing(sc: Scan)
    ensures Run(sc, []) == sc
  {
  }

  lemma {:induction false} ExportIsLines(o: Options, sections: seq<Section>)
    requires NeatOptions(o)
    ensures forall k | 0 <= k < |ExportOf(o, sections)| :: '\n' !in ExportOf(o, sections)[k]
  {
    hide Body, Header;
    if sections != [] {
      ExportIsLines(o, sections[1..]);
      HeaderOpens(sections[0]);
      assert NeatBody(Body(o, sections[0]));
    }
  }

  lemma LoadExportEffect(o: Options, t: Options, published: bool)
    requires NeatOptions(o)
    ensures Load(Join(ExportScript(o, published), '\n'), t) == EffectAll(o, t, Sections(published))
  {
    hide Run, ExportOf, EffectAll, Join, Split, NeatOptions;
    var script := ExportScript(o, published);
    ExportIsLines(o, Sections(published));
    NotEmpty(o, Sections(published));
    SplitJoin(script, '\n');
    RunSections(Scan(None, "", t), o, Sections(published));
  }

  lemma NotEmpty(o: Options, sections: seq<Section>)
    requires sections != []
    ensures ExportOf(o, sections) != []
  {
  }

  // ---------------------------------------------------------- the round trip

  /** An option that comes back: none of its lines ends in a blank, has a line
      feed or starts with '#', and together they are a trimmed, non-empty text. */
  predicate GoodBody(body: seq<string>) {
    && NeatBody(body) && !HashFirst(body)
    && (body != [] ==> Join(body, '\n') != "" && Trimmed(Join(body, '\n')))
  }

  ghost predicate Exportable(o: Options) {
    forall s: Section :: GoodBody(Body(o, s))
  }

  /** `t` with the options that are set in `o`. */
  function Overlay(t: Options, o: Options): Options {
    Options(if o.title != "" then o.title else t.title,
            if o.description != "" then o.description else t.description,
            if o.issue != "" then o.issue else t.issue,
            if o.reviewers != [] then o.reviewers else t.reviewers,
            if o.cc != [] then o.cc else t.cc,
            t.draft || o.draft, t.private || o.private)
  }

  /** `t` with the option `s` of `o`, if it is set. */
  function WithOption(t: Options, o: Options, s: Section): Options {
    if Body(o, s) == [] then t
    else
      match s
      case Title => t.(title := o.title)
      case Description => t.(description := o.description)
      case Issue => t.(issue := o.issue)
      case Reviewer => t.(reviewers := o.reviewers)
      case Cc => t.(cc := o.cc)
      case Draft => t.(draft := true)
      case Private => t.(private := true)
  }

  lemma GoodEffect(o: Options, t: Options, s: Section)
    requires GoodBody(Body(o, s))
    ensures Effect(o, t, s) == WithOption(t, o, s)
  {
    hide TrimSpace, IsSpace, Split, Opens;
    var body := Body(o, s);
    if body == [] {
      TrimmedStays("");
    } else {
      var text := Join(body, '\n');
      TrimmedStays(text);
      match s
      case Title => SplitWhole(o.title, '\n');
      case Issue => SplitWhole(o.issue, '\n');
      case Description => JoinSplit(o.description, '\n');
      case Reviewer => SplitJoin(o.reviewers, '\n');
      case Cc => SplitJoin(o.cc, '\n');
      case Draft =>
      case Private =>
    }
  }

  lemma {:induction false} GoodEffects(o: Options, t: Options, sections: seq<Section>)
    requires Exportable(o)
    ensures EffectAll(o, t, sections) == WithAll(o, t, sections)
    decreases sections
  {
    hide Effect, WithOption, Body, GoodBody;
    if sections != [] {
      GoodEffect(o, t, sections[0]);
      GoodEffects(o, WithOption(t, o, sections[0]), sections[1..]);
    }
  }

  function WithAll(o: Options, t: Options, sections: seq<Section>): Options
    decreases sections
  {
    if sections == [] then t else WithAll(o, WithOption(t, o, sections[0]), sections[1..])
  }

  lemma WithAllIsOverlay(o: Options, t: Options)
    ensures WithAll(o, t, SECTIONS) == Overlay(t, o)
    ensures WithAll(o, t, SECTIONS[2..]) == Overlay(t, o).(title := t.title, description := t.description)
  {
    var a := WithOption(t, o, Title);
    var b := WithOption(a, o, Description);
    assert b == t.(title := Overlay(t, o).title, description := Overlay(t, o).description) by { hide WithAll; }
    hide WithOption, Overlay;
    assert SECTIONS == [Title] + ([Description] + SECTIONS[2..]);
    assert SECTIONS[2..] == [Issue, Reviewer, Cc, Draft, Private];
    hide WithAll;
    WithLater(o, t);
    WithLater(o, b);
    WithAllCons(o, a, Description, SECTIONS[2..]);
    WithAllCons(o, t, Title, [Description] + SECTIONS[2..]);
    assert Overlay(b, o).(title := b.title, description := b.description) == Overlay(t, o) by { SameLater(o, t, b); }
  }

  lemma SameLater(o: Options, t: Options, b: Options)
    requires b == t.(title := Overlay(t, o).title, description := Overlay(t, o).description)
    ensures Overlay(b, o).(title := b.title, description := b.description) == Overlay(t, o)
  {
  }

  lemma WithLater(o: Options, t: Options)
    ensures WithAll(o, t, [Issue, Reviewer, Cc, Draft, Private])
         == Overlay(t, o).(title := t.title, description := t.description)
  {
    var c := WithOption(t, o, Issue);
    var d := WithOption(c, o, Reviewer);
    var e := WithOption(d, o, Cc);
    var f := WithOption(e, o, Draft);
    var g := WithOption(f, o, Private);
    assert g == Overlay(t, o).(title := t.title, description := t.description) by { hide WithAll; }
    hide WithOption, Overlay;
    assert WithAll(o, g, []) == g;
    hide WithAll;
    WithAllCons(o, f, Private, []);
    WithAllCons(o, e, Draft, [Private]);
    WithAllCons(o, d, Cc, [Draft, Private]);
    WithAllCons(o, c, Reviewer, [Cc, Draft, Private]);
    WithAllCons(o, t, Issue, [Reviewer, Cc, Draft, Private]);
  }

  lemma WithAllCons(o: Options, t: Options, s: Section, rest: seq<Section>)
    ensures WithAll(o, t, [s] + rest) == WithAll(o, WithOption(t, o, s), rest)
  {
    assert ([s] + rest)[1..] == rest;
  }

  /** Reading an exported script sets every option that was set, and no other; the script of a
      published review leaves out title and description, and nothing else. */
  lemma LoadExport(o: Options, t: Options)
    requires Exportable(o)
    ensures Load(Join(ExportScript(o, false), '\n'), t) == Overlay(t, o)
    ensures Load(Join(ExportScript(o, true), '\n'), t)
         == Overlay(t, o).(title := t.title, description := t.description)
  {
    hide Load, Join, ExportScript, EffectAll, WithAll, Overlay, Body;
    assert NeatOptions(o);
    LoadExportEffect(o, t, false);
    LoadExportEffect(o, t, true);
    GoodEffects(o, t, SECTIONS);
    GoodEffects(o, t, SECTIONS[2..]);
    WithAllIsOverlay(o, t);
  }

  // ------------------------------------------- only good options come back

  /** No line after the first starts with '#', and none is ended by a blank. */
  predicate NeatText(v: string) {
    && (forall k {:trigger v[k]} | 0 <= k < |v| - 1 && v[k] == '\n' :: v[k + 1] != '#')
    && (forall k {:trigger v[k]} | 1 <= k < |v| && v[k] == '\n' :: v[k - 1] != ' ' && v[k - 1] != '\t')
  }

  /** The text collected while reading: whole lines. */
  predicate Collected(text: string) {
    NeatText(text) && (text != "" ==> text[0] != '#' && text[|text| - 1] == '\n')
  }

  lemma {:induction false} TrimBlanksPrefix(s: string)
    ensures TrimBlanks(s) <= s && !EndsBlank(TrimBlanks(s))
  {
    if EndsBlank(s) { TrimBlanksPrefix(s[..|s| - 1]); }
  }

  lemma CollectMore(text: string, line: string)
    requires Collected(text) && Neat(line) && !Hash(line)
    ensures Collected(text + line + "\n")
  {
    var all := text + line + "\n";
    forall k | 0 <= k < |all| && all[k] == '\n'
      ensures k < |all| - 1 ==> all[k + 1] != '#'
      ensures k >= 1 ==> all[k - 1] != ' ' && all[k - 1] != '\t'
    {
      if k < |text| {
        assert text[k] == '\n';
      } else {
        assert forall j | 0 <= j < |line| :: all[|text| + j] == line[j] && line[j] != '\n';
        assert k == |all| - 1;
      }
    }
  }

  /** A trimmed piece of a collected text splits into neat lines. */
  lemma {:induction false} SplitNeat(v: string)
    requires NeatText(v) && !EndsBlank(v)
    ensures NeatBody(Split(v, '\n'))
    ensures HashFirst(Split(v, '\n')) <==> Hash(v)
    ensures Split(v, '\n')[0] == "" <==> v == "" || v[0] == '\n'
  {
    if v != "" {
      var rest := v[1..];
      assert NeatText(rest) && !EndsBlank(rest);
      SplitNeat(rest);
      var lines, tail := Split(v, '\n'), Split(rest, '\n');
      if v[0] == '\n' {
        assert !Hash(rest) by { if rest != "" { assert rest[0] == v[1]; } }
        assert lines == [""] + tail;
      } else {
        assert lines[0] == [v[0]] + tail[0] && lines[1..] == tail[1..];
        if tail[0] == "" {
          assert rest != "" ==> v[1] == '\n';
          assert !EndsBlank([v[0]]);
        }
      }
    }
  }

  lemma {:induction false} JoinNeat(parts: seq<string>)
    requires forall k | 0 <= k < |parts| :: Neat(parts[k])
    ensures Neat(Join(parts, ','))
  {
    if |parts| > 1 {
      JoinNeat(parts[1..]);
      var s, rest := Join(parts, ','), Join(parts[1..], ',');
      assert s == parts[0] + [','] + rest;
      assert s[|s| - 1] == if rest == "" then ',' else rest[|rest| - 1];
    }
  }

  lemma PutNeat(o: Options, s: Section, v: string)
    requires NeatOptions(o) && NeatText(v) && !EndsBlank(v)
    ensures NeatOptions(Put(o, s, v))
  {
    hide NeatText, Split, Join, Neat, ToBool;
    if v != "" {
      SplitNeat(v);
      JoinNeat(Split(v, '\n'));
      assert Neat("yes") by { Yes(); }
      var o' := Put(o, s, v);
      forall r: Section ensures NeatBody(Body(o', r)) {
        assert NeatBody(Body(o, r));
      }
    }
  }

  lemma Yes()
    ensures Neat("yes")
  {
  }

  ghost predicate ScanNeat(sc: Scan) {
    Collected(sc.text) && NeatOptions(sc.o)
  }

  lemma FlushNeat(sc: Scan)
    requires ScanNeat(sc)
    ensures NeatOptions(Flush(sc))
  {
    hide TrimSpace, IsSpace, Put, NeatOptions;
    var v := TrimSpace(sc.text);
    TrimSpaceTrims(sc.text);
    var i, j :| 0 <= i <= j <= |sc.text| && v == sc.text[i..j];
    InnerNeat(sc.text, i, j);
    assert !EndsBlank(v) by { BlanksAreSpaces(v); }
    if sc.section.Some? { PutNeat(sc.o, sc.section.value, v); }
  }

  lemma InnerNeat(text: string, i: nat, j: nat)
    requires NeatText(text) && i <= j <= |text|
    ensures NeatText(text[i..j])
  {
    var v := text[i..j];
    forall k | 0 <= k < |v| && v[k] == '\n'
      ensures k < |v| - 1 ==> v[k + 1] != '#'
      ensures k >= 1 ==> v[k - 1] != ' ' && v[k - 1] != '\t'
    {
      assert text[i + k] == '\n';
    }
  }

  lemma BlanksAreSpaces(v: string)
    requires Trimmed(v)
    ensures !EndsBlank(v)
  {
  }

  lemma StepNeat(sc: Scan, rawLine: string)
    requires ScanNeat(sc) && '\n' !in rawLine
    ensures ScanNeat(Step(sc, rawLine))
  {
    hide Opens, Flush, NeatOptions, NeatText;
    assert Collected("") by { NothingCollected(); }
    FlushNeat(sc);
    TrimBlanksPrefix(rawLine);
    var line := TrimBlanks(rawLine);
    if !Hash(line) { CollectMore(sc.text, line); }
  }

  lemma NothingCollected()
    ensures Collected("")
  {
  }

  lemma {:induction false} RunNeat(sc: Scan, lines: seq<string>)
    requires ScanNeat(sc) && forall k | 0 <= k < |lines| :: '\n' !in lines[k]
    ensures ScanNeat(Run(sc, lines))
    decreases lines
  {
    hide ScanNeat, Step;
    if lines != [] {
      StepNeat(sc, lines[0]);
      RunNeat(Step(sc, lines[0]), lines[1..]);
    }
  }

  /** Whatever the script, what is loaded from it is neat. */
  lemma LoadNeat(data: string)
    ensures NeatOptions(Load(data, FRESH))
  {
    hide Split, Run, Flush;
    var sc := Scan(None, "", FRESH);
    assert ScanNeat(sc);
    RunNeat(sc, Split(data, '\n'));
    FlushNeat(Run(sc, Split(data, '\n')));
  }

  /** What the lines under a heading mean for `o`. */
  function Meaning(o: Options, s: Section, lines: seq<string>): Options
    requires lines != []
  {
    match s
    case Title => o.(title := lines[0])
    case Description => o.(description := Join(lines, '\n'))
    case Issue => o.(issue := Join(lines, ','))
    case Reviewer => o.(reviewers := lines)
    case Cc => o.(cc := lines)
    case Draft => o.(draft := Answer(lines, o.draft))
    case Private => o.(private := Answer(lines, o.private))
  }

  /** A yes or a no, on its own; anything else leaves things as they are. */
  function Answer(lines: seq<string>, before: bool): bool {
    if |lines| == 1 && lines[0] in ["y", "yes", "on", "t", "true", "1"] then true
    else if |lines| == 1 && lines[0] in ["n", "no", "off", "f", "false", "0"] then false
    else before
  }

  /** A heading that opens a section, in whatever form, and lines of text below it: the title is
      the first line, the description all of them, issues are joined by commas, reviewers and
      copies are listed line by line, a draft or a private review is switched by one word. */
  lemma LoadSection(heading: string, s: Section, lines: seq<string>, o: Options)
    requires Neat(heading) && Hash(heading) && Opens(heading) == Some(s)
    requires lines != [] && GoodBody(lines)
    ensures Load(Join([heading] + lines, '\n'), o) == Meaning(o, s, lines)
  {
    hide Opens, Join, Split, TrimSpace, Run, Put, Meaning, Trimmed;
    var all := [heading] + lines;
    assert forall k | 0 <= k < |all| :: '\n' !in all[k];
    SplitJoin(all, '\n');
    var start := Scan(Some(s), "", o);
    HashStep(Scan(None, "", o), heading);
    RunCons(Scan(None, "", o), heading, lines);
    RunPlain(start, lines);
    assert "" + Terminate(lines) == Terminate(lines);
    assert TrimSpace(Terminate(lines)) == Join(lines, '\n') by {
      LineFeedIsSpace();
      TerminateJoin(lines);
      TrimPad("", Join(lines, '\n'), "\n");
      assert "" + Join(lines, '\n') + "\n" == Join(lines, '\n') + "\n";
      TrimmedStays(Join(lines, '\n'));
    }
    PutMeans(o, s, lines);
  }

  lemma PutMeans(o: Options, s: Section, lines: seq<string>)
    requires lines != [] && GoodBody(lines)
    ensures Put(o, s, Join(lines, '\n')) == Meaning(o, s, lines)
  {
    hide Join, Split, Trimmed;
    SplitJoin(lines, '\n');
    JoinOne(lines);
    if |lines| > 1 {
      JoinMany(lines);
      NoAnswer(Join(lines, '\n'));
    }
  }

  lemma JoinOne(lines: seq<string>)
    ensures |lines| == 1 ==> Join(lines, '\n') == lines[0]
  {
  }

  lemma JoinMany(lines: seq<string>)
    requires |lines| > 1
    ensures '\n' in Join(lines, '\n')
  {
    assert Join(lines, '\n') == lines[0] + ['\n'] + Join(lines[1..], '\n');
  }

  lemma NoAnswer(text: string)
    requires '\n' in text
    ensures ToBool(text) == None
  {
  }

  /** The longest of the options whose first line starts with '#'. */
  function LongestHash(o: Options, sections: seq<Section>): nat {
    if sections == [] then 0
    else
      var rest := LongestHash(o, sections[1..]);
      if HashFirst(Body(o, sections[0])) && |Body(o, sections[0])| > rest then |Body(o, sections[0])| else rest
  }

  lemma {:induction false} LongestIsReached(o: Options, sections: seq<Section>)
    ensures forall s | s in sections && HashFirst(Body(o, s)) :: |Body(o, s)| <= LongestHash(o, sections)
    ensures LongestHash(o, sections) > 0
        ==> exists s :: s in sections && HashFirst(Body(o, s)) && |Body(o, s)| == LongestHash(o, sections)
  {
    hide Body;
    if sections != [] {
      LongestIsReached(o, sections[1..]);
      var first := sections[0];
      assert first in sections && forall s | s in sections[1..] :: s in sections;
      assert forall s | s in sections :: s == first || s in sections[1..];
    }
  }

  lemma {:induction false} CountLines(v: string)
    ensures |Split(v, '\n')| == multiset(v)['\n'] + 1
  {
    if v != "" {
      assert v == [v[0]] + v[1..];
      CountLines(v[1..]);
    }
  }

  /** Trimming adds no lines. */
  lemma TrimLines(body: seq<string>)
    requires forall k | 0 <= k < |body| :: '\n' !in body[k]
    ensures var v := TrimSpace(Join(body, '\n')); v != "" ==> |Split(v, '\n')| <= |body|
  {
    hide TrimSpace, Split, Join, IsSpace;
    if body == [] {
      assert TrimSpace(Join([], '\n')) == "" by { NoLines(); }
    } else {
      var s := Join(body, '\n');
      TrimSpaceTrims(s);
      var i, j :| 0 <= i <= j <= |s| && TrimSpace(s) == s[i..j];
      FewerInside(s, i, j, '\n');
      CountLines(s);
      CountLines(s[i..j]);
      SplitJoin(body, '\n');
    }
  }

  lemma FewerInside(s: string, i: nat, j: nat, c: char)
    requires i <= j <= |s|
    ensures multiset(s[i..j])[c] <= multiset(s)[c]
  {
    assert s == s[..i] + s[i..j] + s[j..];
  }

  lemma NoLines()
    ensures TrimSpace(Join([], '\n')) == ""
  {
  }

  lemma PutLength(t: Options, s: Section, v: string, r: Section)
    ensures |Body(Put(t, s, v), r)| <=
            if r == s && v != "" && |Body(t, r)| <= |Split(v, '\n')| then |Split(v, '\n')| else |Body(t, r)|
  {
    hide ToBool;
  }

  /** A text that starts with '#' can only be put by a longer one. */
  lemma EffectLength(o: Options, t: Options, s: Section, n: nat)
    requires NeatOptions(o)
    requires HashFirst(Body(o, s)) ==> |Body(o, s)| <= n
    requires forall r: Section | HashFirst(Body(o, r)) :: |Body(t, r)| < n
    ensures forall r: Section | HashFirst(Body(o, r)) :: |Body(Effect(o, t, s), r)| < n
  {
    hide Put, TrimSpace, Join, Split, Body;
    var body := Body(o, s);
    var v := TrimSpace(Join(Counted(body), '\n'));
    assert NeatBody(body);
    TrimLines(Counted(body));
    forall r: Section | HashFirst(Body(o, r)) ensures |Body(Effect(o, t, s), r)| < n {
      PutLength(t, Target(s, body), v, r);
    }
  }

  lemma {:induction false} EffectsLength(o: Options, t: Options, sections: seq<Section>, n: nat)
    requires NeatOptions(o)
    requires forall s: Section | HashFirst(Body(o, s)) :: |Body(o, s)| <= n && |Body(t, s)| < n
    ensures forall s: Section | HashFirst(Body(o, s)) :: |Body(EffectAll(o, t, sections), s)| < n
    decreases sections
  {
    hide Body, Effect, NeatOptions;
    if sections != [] {
      EffectLength(o, t, sections[0], n);
      EffectsLength(o, Effect(o, t, sections[0]), sections[1..], n);
    }
  }

  /** Options that come back have no text starting with '#': the longest such
      text would have to be put by a longer one. */
  lemma NoHashComesBack(o: Options)
    requires NeatOptions(o) && EffectAll(o, FRESH, SECTIONS) == o
    ensures forall s: Section :: !HashFirst(Body(o, s))
  {
    hide EffectAll, NeatOptions, LongestHash, Body;
    var n := LongestHash(o, SECTIONS);
    LongestIsReached(o, SECTIONS);
    forall s: Section ensures s in SECTIONS && |Body(FRESH, s)| == 0 { AllSections(s); }
    if n > 0 {
      EffectsLength(o, FRESH, SECTIONS, n);
    }
  }

  lemma AllSections(s: Section)
    ensures s in SECTIONS && |Body(FRESH, s)| == 0
  {
    match s
    case Title => assert SECTIONS[0] == s;
    case Description => assert SECTIONS[1] == s;
    case Issue => assert SECTIONS[2] == s;
    case Reviewer => assert SECTIONS[3] == s;
    case Cc => assert SECTIONS[4] == s;
    case Draft => assert SECTIONS[5] == s;
    case Private => assert SECTIONS[6] == s;
  }

  lemma PutFrame(t: Options, u: Options, s: Section, v: string, r: Section)
    ensures r != s ==> Body(Put(t, s, v), r) == Body(t, r)
    ensures Body(t, s) == Body(u, s) ==> Body(Put(t, s, v), s) == Body(Put(u, s, v), s)
  {
    hide Split, Join;
    if Body(t, s) == Body(u, s) && s == Description {
      JoinSplit(t.description, '\n');
      JoinSplit(u.description, '\n');
    }
  }

  /** Each option is put by its own section, and by no other. */
  lemma {:induction false} OwnSection(o: Options, t: Options, sections: seq<Section>, s: Section)
    requires Distinct(sections) && forall r: Section :: !HashFirst(Body(o, r))
    ensures var v := TrimSpace(Join(Body(o, s), '\n'));
      Body(EffectAll(o, t, sections), s) == if s in sections then Body(Put(t, s, v), s) else Body(t, s)
    decreases sections
  {
    hide Body, Put, TrimSpace, Join;
    if sections != [] {
      var first, rest := sections[0], sections[1..];
      var u := Effect(o, t, first);
      assert u == Put(t, first, TrimSpace(Join(Body(o, first), '\n')));
      OwnSection(o, u, rest, s);
      PutFrame(t, u, first, TrimSpace(Join(Body(o, first), '\n')), s);
      if s == first {
        assert s !in rest;
      } else {
        assert s in sections <==> s in rest;
        PutFrame(t, u, s, TrimSpace(Join(Body(o, s), '\n')), s);
      }
    }
  }

  lemma OwnGood(o: Options, s: Section)
    requires NeatBody(Body(o, s)) && !HashFirst(Body(o, s))
    requires Body(Put(FRESH, s, TrimSpace(Join(Body(o, s), '\n'))), s) == Body(o, s)
    ensures GoodBody(Body(o, s))
  {
    hide TrimSpace, IsSpace, Split, Opens;
    var body := Body(o, s);
    if body != [] {
      var text := Join(body, '\n');
      var v := TrimSpace(text);
      TrimSpaceTrims(text);
      TrimmedStays("");
      match s
      case Title => SplitWhole(v, '\n') by { OneLine(o.title); }
      case Issue => SplitWhole(v, '\n') by { OneLine(o.issue); }
      case Description =>
        JoinSplit(v, '\n');
      case Reviewer => JoinSplit(v, '\n');
      case Cc => JoinSplit(v, '\n');
      case Draft => YesTrimmed();
      case Private => YesTrimmed();
    }
  }

  lemma YesTrimmed()
    ensures Trimmed("yes")
  {
  }

  lemma OneLine(s: string)
    requires '\n' !in s
    ensures '\n' !in TrimSpace(s)
  {
    hide TrimSpace, IsSpace;
    TrimSpaceTrims(s);
    var i, j :| 0 <= i <= j <= |s| && TrimSpace(s) == s[i..j];
  }

  /** An exported script, read into fresh options, gives the options back
      exactly when they are exportable. */
  lemma LoadExportExactly(o: Options)
    ensures Load(Join(ExportScript(o, false), '\n'), FRESH) == o <==> Exportable(o)
  {
    hide Load, Join, ExportScript, EffectAll, Body, GoodBody, NeatBody;
    if Exportable(o) {
      LoadExport(o, FRESH);
    }
    if Load(Join(ExportScript(o, false), '\n'), FRESH) == o {
      LoadNeat(Join(ExportScript(o, false), '\n'));
      LoadExportEffect(o, FRESH, false);
      NoHashComesBack(o);
      forall s: Section ensures GoodBody(Body(o, s)) {
        OwnSection(o, FRESH, SECTIONS, s);
        AllSections(s);
        OwnGood(o, s);
      }
    }
  }

  /** Options that do not come back: an issue number as the title. */
  lemma HashTitleIsLost()
    ensures var o := FRESH.(title := "#1"); Load(Join(ExportScript(o, false), '\n'), FRESH) != o
  {
    hide Load, ExportScript, Join;
    var o := FRESH.(title := "#1");
    assert Body(o, Title) == ["#1"] && HashFirst(Body(o, Title));
    LoadExportExactly(o);
  }

  // -------------------------------------------------------- published reviews

  lemma {:induction false} SplitJoinMembers(parts: seq<string>, c: char)
    requires parts != []
    ensures forall line | line in Split(Join(parts, c), c) :: exists part :: part in parts && line in Split(part, c)
  {
    hide Split;
    var first := parts[0];
    assert first in parts;
    if |parts| > 1 {
      SplitJoinMembers(parts[1..], c);
      SplitConcat(first, c, Join(parts[1..], c));
      forall line | line in Split(Join(parts, c), c) ensures exists part :: part in parts && line in Split(part, c) {
        if line !in Split(first, c) {
          var part :| part in parts[1..] && line in Split(part, c);
          assert part in parts;
        }
      }
    }
  }

  /** Neither the title nor the description. */
  predicate Elsewhere(section: Option<Section>) {
    section != Some(Title) && section != Some(Description)
  }

  lemma {:induction false} RunElsewhere(sc: Scan, lines: seq<string>)
    requires Elsewhere(sc.section) && forall line | line in lines :: Elsewhere(Opens(TrimBlanks(line)))
    ensures var o := Flush(Run(sc, lines)); o.title == sc.o.title && o.description == sc.o.description
    decreases lines
  {
    hide Opens, TrimBlanks, TrimSpace, Split, Join;
    if lines != [] {
      assert lines[0] in lines;
      RunElsewhere(Step(sc, lines[0]), lines[1..]);
    }
  }

  lemma {:induction false} ExportMembers(o: Options, sections: seq<Section>)
    ensures forall part | part in ExportOf(o, sections) ::
              part == "" || exists s :: s in sections && (part == Header(s) || part in Body(o, s))
  {
    hide Header, Body;
    if sections != [] {
      ExportMembers(o, sections[1..]);
      assert sections[0] in sections && forall s | s in sections[1..] :: s in sections;
      forall part | part in ExportOf(o, sections)
        ensures part == "" || exists s :: s in sections && (part == Header(s) || part in Body(o, s))
      {
        if part !in SectionLines(sections[0], Body(o, sections[0])) {
          assert part in ExportOf(o, sections[1..]);
        }
      }
    }
  }

  /** A section with the trimmed text that is stored for it. */
  datatype Store = Store(section: Section, text: string)

  function PutAll(t: Options, stores: seq<Store>): Options
    decreases stores
  {
    if stores == [] then t else PutAll(Put(t, stores[0].section, stores[0].text), stores[1..])
  }

  /** What reading the lines stores, section by section. */
  function Stored(section: Option<Section>, text: string, lines: seq<string>): seq<Store>
    decreases lines
  {
    var now := if section.Some? then [Store(section.value, TrimSpace(text))] else [];
    if lines == [] then now
    else
      var line := TrimBlanks(lines[0]);
      if Opens(line).Some? then now + Stored(Opens(line), "", lines[1..])
      else if Hash(line) || section.None? then Stored(section, text, lines[1..])
      else Stored(section, text + line + "\n", lines[1..])
  }

  lemma {:induction false} RunStores(sc: Scan, lines: seq<string>)
    ensures Flush(Run(sc, lines)) == PutAll(sc.o, Stored(sc.section, sc.text, lines))
    decreases lines
  {
    hide Put, Opens, TrimSpace, TrimBlanks;
    if lines == [] {
      if sc.section.Some? { PutFirst(sc.o, Store(sc.section.value, TrimSpace(sc.text)), []); }
    } else {
      var line := TrimBlanks(lines[0]);
      RunStores(Step(sc, lines[0]), lines[1..]);
      if Opens(line).Some? {
        var later := Stored(Opens(line), "", lines[1..]);
        if sc.section.Some? {
          PutFirst(sc.o, Store(sc.section.value, TrimSpace(sc.text)), later);
        } else {
          assert [] + later == later;
        }
      }
    }
  }

  lemma PutFirst(t: Options, first: Store, rest: seq<Store>)
    ensures PutAll(t, [first] + rest) == PutAll(Put(t, first.section, first.text), rest)
  {
    hide Put;
    assert ([first] + rest)[1..] == rest;
  }

  /** Stores a title or a description, and not an empty one. */
  predicate Touches(p: Store) {
    (p.section == Title || p.section == Description) && p.text != ""
  }

  lemma {:induction false} PutAllKeeps(t: Options, stores: seq<Store>)
    requires forall p | p in stores :: !Touches(p)
    ensures PutAll(t, stores).title == t.title && PutAll(t, stores).description == t.description
    decreases stores
  {
    hide Split, Join, ToBool;
    if stores != [] {
      assert stores[0] in stores;
      PutAllKeeps(Put(t, stores[0].section, stores[0].text), stores[1..]);
    }
  }

  /** The same section of two options, put alike, stays alike; once put, it is the same. */
  lemma {:induction false} PutAllAlike(t: Options, u: Options, stores: seq<Store>, p: Store)
    requires Touches(p)
    requires p in stores || (if p.section == Title then t.title == u.title else t.description == u.description)
    ensures p.section == Title ==> PutAll(t, stores).title == PutAll(u, stores).title
    ensures p.section == Description ==> PutAll(t, stores).description == PutAll(u, stores).description
    decreases stores
  {
    hide Split, Join, ToBool;
    if stores != [] {
      var q := stores[0];
      PutAllAlike(Put(t, q.section, q.text), Put(u, q.section, q.text), stores[1..], p);
    }
  }

  /** Title and description are the same. */
  predicate Keeps(before: Options, after: Options) {
    before.title == after.title && before.description == after.description
  }

  /** Whatever they are, title and description survive these stores. */
  ghost predicate StoresKeep(stores: seq<Store>) {
    forall t :: Keeps(t, PutAll(t, stores))
  }

  /** Whatever they are, title and description survive reading this script. */
  ghost predicate ScriptKeeps(data: string) {
    forall t :: Keeps(t, Load(data, t))
  }

  /** Stores leave the title and description of all options alone exactly when none of
      them stores either. */
  lemma StoresKeepWhen(stores: seq<Store>)
    ensures StoresKeep(stores) <==> forall p | p in stores :: !Touches(p)
  {
    if forall p | p in stores :: !Touches(p) {
      forall t ensures Keeps(t, PutAll(t, stores)) {
        PutAllKeeps(t, stores);
      }
    } else {
      var p :| p in stores && Touches(p);
      var end := PutAll(FRESH, stores);
      var t := FRESH.(title := end.title + "x", description := end.description + "x");
      PutAllAlike(FRESH, t, stores, p);
      assert |end.title + "x"| > |end.title| && |end.description + "x"| > |end.description|;
      assert !Keeps(t, PutAll(t, stores));
    }
  }

  /** Reading a script leaves title and description alone, whatever they are, exactly when
      it holds no text under a heading for one of them. */
  lemma LoadKeeps(data: string)
    ensures ScriptKeeps(data) <==> forall p | p in Stored(None, "", Split(data, '\n')) :: !Touches(p)
  {
    hide Run, Stored, PutAll, Touches, Split, Flush, StoresKeep, ScriptKeeps;
    var lines := Split(data, '\n');
    forall t ensures Load(data, t) == PutAll(t, Stored(None, "", lines)) {
      RunStores(Scan(None, "", t), lines);
    }
    LoadsAreStores(data, Stored(None, "", lines));
    StoresKeepWhen(Stored(None, "", lines));
  }

  lemma LoadsAreStores(data: string, stores: seq<Store>)
    requires forall t :: Load(data, t) == PutAll(t, stores)
    ensures ScriptKeeps(data) <==> StoresKeep(stores)
  {
    hide Load, PutAll, Keeps;
    if ScriptKeeps(data) {
      forall t ensures Keeps(t, PutAll(t, stores)) {
        assert Keeps(t, Load(data, t));
      }
    }
    if StoresKeep(stores) {
      forall t ensures Keeps(t, Load(data, t)) {
        assert Keeps(t, PutAll(t, stores));
      }
    }
  }

  /** What the exported sections store. */
  function Exported(o: Options, sections: seq<Section>): seq<Store> {
    if sections == [] then []
    else
      var body := Body(o, sections[0]);
      [Store(Target(sections[0], body), TrimSpace(Join(Counted(body), '\n')))] + Exported(o, sections[1..])
  }

  lemma {:induction false} EffectsAreStores(o: Options, t: Options, sections: seq<Section>)
    ensures EffectAll(o, t, sections) == PutAll(t, Exported(o, sections))
    decreases sections
  {
    hide Put, Target, Counted, Body, TrimSpace, Join;
    if sections != [] {
      var s := sections[0];
      PutFirst(t, Exported(o, sections)[0], Exported(o, sections[1..]));
      EffectsAreStores(o, Effect(o, t, s), sections[1..]);
    }
  }

  lemma {:induction false} ExportedMembers(o: Options, sections: seq<Section>)
    ensures (forall p | p in Exported(o, sections) :: !Touches(p))
       <==> (forall s | s in sections :: !Rewrites(o, s))
  {
    hide Put, Target, Counted, Body, TrimSpace, Join, Touches;
    if sections != [] {
      ExportedMembers(o, sections[1..]);
      var first, rest := Exported(o, sections)[0], Exported(o, sections[1..]);
      assert Exported(o, sections) == [first] + rest;
      assert sections == [sections[0]] + sections[1..];
      assert Touches(first) <==> Rewrites(o, sections[0]);
      assert first in Exported(o, sections) && sections[0] in sections;
    }
  }

  /** An option whose first line is a heading for title or description, with text after it. */
  predicate Rewrites(o: Options, s: Section) {
    var body := Body(o, s);
    Touches(Store(Target(s, body), TrimSpace(Join(Counted(body), '\n'))))
  }

  /** The script of a published review leaves title and description alone, whatever they
      are, exactly when no exported option begins with such a heading and goes on. */
  lemma PublishedKeeps(o: Options)
    requires NeatOptions(o)
    ensures ScriptKeeps(Join(ExportScript(o, true), '\n')) <==> forall s | s in Sections(true) :: !Rewrites(o, s)
  {
    hide Load, ExportScript, EffectAll, PutAll, Exported, Rewrites, NeatOptions, Touches, Join, Keeps, StoresKeep,
      ScriptKeeps;
    var data, stores := Join(ExportScript(o, true), '\n'), Exported(o, Sections(true));
    forall t ensures Load(data, t) == PutAll(t, stores) {
      LoadExportEffect(o, t, true);
      EffectsAreStores(o, t, Sections(true));
    }
    LoadsAreStores(data, stores);
    StoresKeepWhen(stores);
    ExportedMembers(o, Sections(true));
  }

  /** Options that a script with an indented heading gives, and whose own script rewrites the title. */
  lemma HeadingRewritesTitle()
    ensures var o := Load("# [Reviewer]\n # [Title]\nx", FRESH);
      && o == FRESH.(reviewers := ["# [Title]", "x"])
      && !ScriptKeeps(Join(ExportScript(o, true), '\n'))
  {
    var o := FRESH.(reviewers := ["# [Title]", "x"]);
    LoadsHeading();
    TitleHeading();
    LoadNeat("# [Reviewer]\n # [Title]\nx");
    hide Load, ExportScript, Opens, TrimSpace, Split, ScriptKeeps, NeatOptions;
    var body := Body(o, Reviewer);
    assert Counted(body) == ["x"] && Target(Reviewer, body) == Title;
    assert Join(["x"], '\n') == "x" && TrimSpace("x") == "x" by { XIsTrimmed(); }
    assert Reviewer in Sections(true) by { assert Sections(true)[1] == Reviewer; }
    assert Rewrites(o, Reviewer);
    PublishedKeeps(o);
  }

  lemma TitleHeading()
    ensures Opens("# [Title]") == Some(Title) && Neat("# [Title]") && Hash("# [Title]")
  {
    hide MatchSection, Lookup, ToLower;
    NameIsWord(Title);
    NameIsKnown(Title);
    MatchHeading("Title", "");
    assert "# [" + "Title" + "]" + "" == "# [Title]";
  }

  lemma LoadsHeading()
    ensures Load("# [Reviewer]\n # [Title]\nx", FRESH) == FRESH.(reviewers := ["# [Title]", "x"])
  {
    hide Split, Opens, TrimBlanks, TrimSpace, IsSpace, Run, Flush;
    var data, start := "# [Reviewer]\n # [Title]\nx", Scan(None, "", FRESH);
    SplitTwoLines("# [Reviewer]", " # [Title]\nx", data);
    SplitTwoLines(" # [Title]", "x", " # [Title]\nx");
    SplitWhole("x", '\n');
    assert Split(data, '\n') == ["# [Reviewer]"] + ([" # [Title]"] + ["x"]);
    HeadingLines();
    RunCons(start, "# [Reviewer]", [" # [Title]"] + ["x"]);
    var sc := Scan(Some(Reviewer), "", FRESH);
    assert Flush(start) == FRESH by { FlushNothing(); }
    assert Step(start, "# [Reviewer]") == sc;
    RunCons(sc, " # [Title]", ["x"]);
    var first := sc.(text := " # [Title]\n");
    assert Step(sc, " # [Title]") == first;
    RunOne(first, "x");
    assert " # [Title]\n" + "x" + "\n" == " # [Title]\nx\n";
    assert Run(sc, [" # [Title]"] + ["x"]) == sc.(text := " # [Title]\nx\n");
    FlushHeading();
  }

  lemma FlushNothing()
    ensures Flush(Scan(None, "", FRESH)) == FRESH
  {
  }

  lemma FlushHeading()
    ensures Flush(Scan(Some(Reviewer), " # [Title]\nx\n", FRESH)) == FRESH.(reviewers := ["# [Title]", "x"])
  {
    hide Split, TrimSpace, Opens, TrimBlanks;
    HeadingLines();
    SplitTwoLines("# [Title]", "x", "# [Title]\nx");
    SplitWhole("x", '\n');
    assert ["# [Title]"] + ["x"] == ["# [Title]", "x"];
  }

  lemma SplitTwoLines(line: string, rest: string, text: string)
    requires '\n' !in line && text == line + "\n" + rest
    ensures Split(text, '\n') == [line] + Split(rest, '\n')
  {
    hide Split;
    SplitWhole(line, '\n');
    SplitConcat(line, '\n', rest);
    assert line + ['\n'] + rest == text;
  }

  lemma HeadingLines()
    ensures Opens(TrimBlanks("# [Reviewer]")) == Some(Reviewer)
    ensures TrimBlanks(" # [Title]") == " # [Title]" && Opens(" # [Title]") == None
    ensures TrimBlanks("x") == "x" && Opens("x") == None
    ensures TrimSpace(" # [Title]\nx\n") == "# [Title]\nx"
  {
    hide MatchSection, Lookup, ToLower;
    NameIsWord(Reviewer);
    NameIsKnown(Reviewer);
    MatchHeading("Reviewer", "");
    assert "# [" + "Reviewer" + "]" + "" == "# [Reviewer]";
    assert MatchSection(" # [Title]") == None && MatchSection("x") == None by { NoHashNoSection(); }
    assert " # [Title]\nx\n"[1..] == "# [Title]\nx\n";
    assert TrimLeft(" # [Title]\nx\n") == TrimLeft("# [Title]\nx\n") == "# [Title]\nx\n";
    assert "# [Title]\nx\n"[..11] == "# [Title]\nx";
    assert TrimRight("# [Title]\nx\n") == TrimRight("# [Title]\nx") == "# [Title]\nx";
  }

  lemma NoHashNoSection()
    ensures MatchSection(" # [Title]") == None && MatchSection("x") == None
  {
  }

  lemma XIsTrimmed()
    ensures TrimSpace("x") == "x" && Neat("x") && !Hash("x")
  {
    TrimmedStays("x");
  }

  /** Whatever the options, the script of a published review leaves title and description
      alone when no line of an option is itself such a heading. */
  lemma PublishedWithoutHeadings(o: Options, t: Options)
    requires forall s, part, line | s in Sections(true) && part in Body(o, s) && line in Split(part, '\n') ::
               Elsewhere(Opens(TrimBlanks(line)))
    ensures var after := Load(Join(ExportScript(o, true), '\n'), t);
      after.title == t.title && after.description == t.description
  {
    hide Run, ExportOf, Join, Split, Opens, TrimBlanks, Body, Header, Flush;
    var script := ExportScript(o, true);
    NotEmpty(o, Sections(true));
    ExportMembers(o, Sections(true));
    SplitJoinMembers(script, '\n');
    forall line | line in Split(Join(script, '\n'), '\n') ensures Elsewhere(Opens(TrimBlanks(line))) {
      var part :| part in script && line in Split(part, '\n');
      if part == "" {
        EmptyOpensNothing();
      } else {
        var s :| s in Sections(true) && (part == Header(s) || part in Body(o, s));
        if part == Header(s) {
          HeaderLine(s);
          assert s != Title && s != Description;
        }
      }
    }
    RunElsewhere(Scan(None, "", t), Split(Join(script, '\n'), '\n'));
  }

  lemma EmptyOpensNothing()
    ensures Split("", '\n') == [""] && Opens(TrimBlanks("")).None?
  {
  }

  lemma HeaderLine(s: Section)
    ensures Split(Header(s), '\n') == [Header(s)] && Opens(TrimBlanks(Header(s))) == Some(s)
  {
    hide Header, Opens;
    HeaderOpens(s);
    SplitWhole(Header(s), '\n');
  }
}
