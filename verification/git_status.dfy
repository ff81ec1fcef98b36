/** project/status.go: reading the raw, NUL-separated output of
    `git diff-index -z` and `git diff-files -z`. */
module GitStatus {
  import opened Text

  const NUL := '\0'

  datatype Status = Status(srcMode: string, destMode: string, srcOID: string, destOID: string,
                           status: string, level: string, srcPath: string, path: string)

  const BLANK := Status("", "", "", "", "", "", "", "")

  // ----------------------------------------------------------------- parsing

  /** A line that ends the parse, one that panics, or the start of a record. */
  datatype Header = Stop | Panic | Header(record: Status, twoPaths: bool)

  predicate IsCopyOrRename(status: string): (two: bool)
    ensures two <==> "C" <= status || "R" <= status
  {
    status != "" && (status[0] == 'C' || status[0] == 'R')
  }

  function ParseHeader(line: string): Header
    requires line != ""
  {
    var fields := Split(line[1..], ' ');
    if line[0] != ':' || |fields| != 5 then Stop
    else if fields[4] == "" then Panic
    else
      var two := IsCopyOrRename(fields[4]);
      Header(BLANK.(srcMode := fields[0], destMode := fields[1], srcOID := fields[2], destOID := fields[3],
                    status := if two then fields[4][..1] else fields[4],
                    level := if two then fields[4][1..] else ""), two)
  }

  function Prepend(s: Status, rest: Option<seq<Status>>): Option<seq<Status>> {
    if rest.None? then None else Some([s] + rest.value)
  }

  /** The records in these lines, up to the first line that is empty or wrong;
      None is the panic of an empty status letter. */
  function ParseLines(lines: seq<string>): Option<seq<Status>>
    decreases |lines|
  {
    if lines == [] || lines[0] == "" then Some([])
    else
      match ParseHeader(lines[0])
      case Stop => Some([])
      case Panic => None
      case Header(record, two) => ParsePath(record, two, lines[1..])
  }

  function ParsePath(s: Status, twoPaths: bool, lines: seq<string>): Option<seq<Status>>
    decreases |lines|
  {
    if lines == [] || lines[0] == "" then Some([])
    else if twoPaths then ParseDest(s.(path := lines[0]), lines[1..])
    else Prepend(s.(path := lines[0]), ParseLines(lines[1..]))
  }

  function ParseDest(s: Status, lines: seq<string>): Option<seq<Status>>
    decreases |lines|
  {
    if lines == [] || lines[0] == "" then Some([])
    else Prepend(s.(srcPath := s.path, path := lines[0]), ParseLines(lines[1..]))
  }

  function Parse(out: string): Option<seq<Status>> {
    ParseLines(Split(out, NUL))
  }

  function Before(done: seq<Status>, rest: Option<seq<Status>>): Option<seq<Status>> {
    if rest.None? then None else Some(done + rest.value)
  }

  /** What is still to come, seen from the flags of the loop. */
  function Pending(wantMode: bool, wantPath: bool, wantTwoPath: bool, s: Status,
                   lines: seq<string>): Option<seq<Status>> {
    if wantMode then ParseLines(lines)
    else if wantPath then ParsePath(s, wantTwoPath, lines)
    else ParseDest(s, lines)
  }

  /** One round of the loop, seen from what is still to come. */
  lemma PendingStep(wantMode: bool, wantPath: bool, wantTwoPath: bool, s: Status, lines: seq<string>)
    requires lines != []
    ensures var pending, line, rest := Pending(wantMode, wantPath, wantTwoPath, s, lines), lines[0], lines[1..];
      if line == "" then pending == Some([])
      else if wantMode then
        match ParseHeader(line)
        case Stop => pending == Some([])
        case Panic => pending == None
        case Header(record, two) => pending == Pending(false, true, two, record, rest)
      else if wantPath && wantTwoPath then pending == Pending(false, false, true, s.(path := line), rest)
      else if wantPath then pending == Prepend(s.(path := line), Pending(true, false, false, s, rest))
      else pending == Prepend(s.(srcPath := s.path, path := line), Pending(true, false, false, s, rest))
  {
    hide ParseHeader, Prepend;
  }

  lemma PendingNow(s: Status, wantPath: bool, wantTwoPath: bool, lines: seq<string>)
    ensures Pending(true, wantPath, wantTwoPath, s, lines) == ParseLines(lines)
    ensures lines == [] ==> forall mode :: Pending(mode, wantPath, wantTwoPath, s, lines) == Some([])
  {
  }

  method ParseGitStatus(out: string) returns (records: Option<seq<Status>>)
    ensures records == Parse(out)
  {
    hide Split, Pending, ParseLines, ParsePath, ParseDest;
    var wantMode, wantPath, wantTwoPath, s := true, false, false, BLANK;
    var result: seq<Status> := [];
    var lines := Split(out, NUL);
    assert lines[0..] == lines;
    ghost var all := ParseLines(lines);
    assert all.Some? ==> [] + all.value == all.value;
    PendingNow(s, false, false, lines);
    for i := 0 to |lines|
      invariant !wantMode && !wantPath ==> wantTwoPath
      invariant Before(result, Pending(wantMode, wantPath, wantTwoPath, s, lines[i..])) == Parse(out)
    {
      var buf := lines[i];
      ghost var before := s;
      assert lines[i..][1..] == lines[i + 1..];
      assert result + [] == result;
      PendingStep(wantMode, wantPath, wantTwoPath, s, lines[i..]);
      if |buf| == 0 {
        return Some(result);
      }
      if wantMode {
        wantMode := false;
        wantPath := true;
        s := BLANK;
        if buf[0] != ':' { return Some(result); }
        var fields := Split(buf[1..], ' ');
        if |fields| != 5 { return Some(result); }
        s := s.(srcMode := fields[0], destMode := fields[1], srcOID := fields[2], destOID := fields[3]);
        s := s.(status := fields[4]);
        if fields[4] == "" { return None; }
        if s.status[0] == 'C' || s.status[0] == 'R' {
          s := s.(level := fields[4][1..]);
          s := s.(status := [fields[4][0]]);
          assert fields[4][..1] == [fields[4][0]];
          wantTwoPath := true;
        } else {
          wantTwoPath := false;
        }
        continue;
      }
      if wantPath {
        wantPath := false;
        s := s.(path := buf);
        if wantTwoPath { continue; } else { wantMode := true; }
      }
      if wantTwoPath {
        wantTwoPath := false;
        wantMode := true;
        s := s.(srcPath := s.path);
        s := s.(path := buf);
      }
      if wantMode {
        ghost var rest := ParseLines(lines[i + 1..]);
        PendingNow(s, wantPath, wantTwoPath, lines[i + 1..]);
        PendingNow(before, false, false, lines[i + 1..]);
        assert rest.Some? ==> result + ([s] + rest.value) == result + [s] + rest.value;
        result := result + [s];
      }
    }
    assert lines[|lines|..] == [] && result + [] == result;
    PendingNow(s, wantPath, wantTwoPath, lines[|lines|..]);
    return Some(result);
  }

  // ---------------------------------------------------------------- encoding

  /** A record git can write. */
  predicate WellFormed(r: Status) {
    && (forall f | f in [r.srcMode, r.destMode, r.srcOID, r.destOID, r.status, r.level] :: ' ' !in f && NUL !in f)
    && r.status != "" && r.path != "" && NUL !in r.path && NUL !in r.srcPath
    && if IsCopyOrRename(r.status) then |r.status| == 1 && r.srcPath != "" else r.level == "" && r.srcPath == ""
  }

  function HeaderFields(r: Status): seq<string> {
    [r.srcMode, r.destMode, r.srcOID, r.destOID, r.status + r.level]
  }

  /** The lines git writes for a record: the source path comes first. */
  function LinesOf(r: Status): seq<string> {
    [":" + Join(HeaderFields(r), ' ')] + (if IsCopyOrRename(r.status) then [r.srcPath, r.path] else [r.path])
  }

  function AllLines(records: seq<Status>): seq<string> {
    if records == [] then [] else LinesOf(records[0]) + AllLines(records[1..])
  }

  /** Every line with its NUL. */
  function Terminated(lines: seq<string>): string {
    if lines == [] then "" else lines[0] + [NUL] + Terminated(lines[1..])
  }

  function Encode(records: seq<Status>): string {
    Terminated(AllLines(records))
  }

  // ------------------------------------------------------------- round trip

  lemma HeaderBack(r: Status)
    requires WellFormed(r)
    ensures ParseHeader(":" + Join(HeaderFields(r), ' ')) ==
            Header(r.(srcPath := "", path := ""), IsCopyOrRename(r.status))
  {
    hide Join, Split;
    var fields := HeaderFields(r);
    var line := ":" + Join(fields, ' ');
    assert line[1..] == Join(fields, ' ');
    assert forall k | 0 <= k < 5 :: ' ' !in fields[k];
    SplitJoin(fields, ' ');
    if IsCopyOrRename(r.status) {
      assert fields[4][..1] == r.status && fields[4][1..] == r.level;
    } else {
      assert fields[4] == r.status;
    }
  }

  /** After the lines of well-formed records, the parse goes on with the rest. */
  lemma {:induction false} LinesBack(records: seq<Status>, rest: seq<string>)
    requires forall r | r in records :: WellFormed(r)
    ensures ParseLines(AllLines(records) + rest) == Before(records, ParseLines(rest))
  {
    hide ParseHeader, WellFormed, Join, HeaderFields, ParseLines;
    if records == [] {
      assert AllLines(records) == [] && [] + rest == rest;
      assert ParseLines(rest).Some? ==> [] + ParseLines(rest).value == ParseLines(rest).value;
    } else {
      hide AllLines, LinesOf, ParsePath, Prepend, Before;
      var r, later := records[0], AllLines(records[1..]) + rest;
      assert r in records && forall q | q in records[1..] :: q in records;
      LinesBack(records[1..], rest);
      FirstLines(records, rest);
      HeaderBack(r);
      PathsBack(r, later);
      HeaderThenPaths(AllLines(records) + rest, r.(srcPath := "", path := ""), IsCopyOrRename(r.status));
      assert records == [r] + records[1..];
      PrependBefore(r, records[1..], ParseLines(rest));
    }
  }

  lemma FirstLines(records: seq<Status>, rest: seq<string>)
    requires records != []
    ensures var all, r, later := AllLines(records) + rest, records[0], AllLines(records[1..]) + rest;
      && all != [] && all[0] == ":" + Join(HeaderFields(r), ' ')
      && all[1..] == LinesOf(r)[1..] + later
  {
    hide Join, HeaderFields;
    var r, later := records[0], AllLines(records[1..]) + rest;
    assert AllLines(records) == LinesOf(r) + AllLines(records[1..]);
    var lines := LinesOf(r);
    hide AllLines, LinesOf;
    assert lines + AllLines(records[1..]) + rest == lines + later;
    assert (lines + later)[1..] == lines[1..] + later;
  }

  lemma PrependBefore(r: Status, records: seq<Status>, rest: Option<seq<Status>>)
    ensures Prepend(r, Before(records, rest)) == Before([r] + records, rest)
  {
    if rest.Some? { assert [r] + (records + rest.value) == [r] + records + rest.value; }
  }

  lemma HeaderThenPaths(lines: seq<string>, head: Status, two: bool)
    requires lines != [] && lines[0] != "" && ParseHeader(lines[0]) == Header(head, two)
    ensures ParseLines(lines) == ParsePath(head, two, lines[1..])
  {
    hide ParseHeader, ParsePath;
  }

  lemma PathsBack(r: Status, later: seq<string>)
    requires WellFormed(r)
    ensures ParsePath(r.(srcPath := "", path := ""), IsCopyOrRename(r.status), LinesOf(r)[1..] + later)
         == Prepend(r, ParseLines(later))
  {
    hide Join, ParseHeader;
    var lines := LinesOf(r)[1..] + later;
    if IsCopyOrRename(r.status) {
      var h := r.(srcPath := "", path := "");
      assert lines == [r.srcPath, r.path] + later;
      assert lines[1..][1..] == later && lines[1..][0] == r.path;
      assert ParsePath(h, true, lines) == ParseDest(h.(path := r.srcPath), lines[1..]);
    } else {
      assert lines == [r.path] + later;
      assert lines[1..] == later;
      assert r.(srcPath := "", path := "").(path := r.path) == r;
    }
  }

  lemma {:induction false} SplitTerminated(lines: seq<string>)
    requires forall line | line in lines :: NUL !in line
    ensures Split(Terminated(lines), NUL) == lines + [""]
  {
    if lines != [] {
      hide Split;
      assert lines[0] in lines;
      SplitTerminated(lines[1..]);
      SplitWhole(lines[0], NUL);
      SplitConcat(lines[0], NUL, Terminated(lines[1..]));
      assert [lines[0]] + (lines[1..] + [""]) == lines + [""];
    } else {
      assert Split("", NUL) == [""];
    }
  }

  lemma {:induction false} JoinClean(fields: seq<string>, c: char)
    requires forall f | f in fields :: NUL !in f
    requires c != NUL
    ensures NUL !in Join(fields, c)
  {
    if |fields| > 0 {
      assert fields[0] in fields;
      if |fields| > 1 {
        JoinClean(fields[1..], c);
      }
    }
  }

  lemma {:induction false} LinesClean(records: seq<Status>)
    requires forall r | r in records :: WellFormed(r)
    ensures forall line | line in AllLines(records) :: NUL !in line
  {
    if records != [] {
      hide Join;
      var r := records[0];
      assert r in records;
      LinesClean(records[1..]);
      JoinClean(HeaderFields(r), ' ');
      assert NUL !in ":" + Join(HeaderFields(r), ' ');
    }
  }

  /** Parsing what git writes for a list of records gives back that list. */
  lemma ParseEncode(records: seq<Status>)
    requires forall r | r in records :: WellFormed(r)
    ensures Parse(Encode(records)) == Some(records)
  {
    LinesClean(records);
    SplitTerminated(AllLines(records));
    LinesBack(records, [""]);
    assert records + [] == records;
  }

  // ------------------------------------------------------ nothing is made up

  lemma HeaderRead(line: string)
    requires line != "" && NUL !in line && ParseHeader(line).Header?
    ensures var r := ParseHeader(line).record;
      && line == ":" + Join(HeaderFields(r), ' ')
      && ParseHeader(line).twoPaths == IsCopyOrRename(r.status)
      && r.path == r.srcPath == ""
      && WellFormed(r.(path := "x", srcPath := if IsCopyOrRename(r.status) then "x" else ""))
  {
    hide Join, Split;
    var fields := Split(line[1..], ' ');
    var r := ParseHeader(line).record;
    JoinSplit(line[1..], ' ');
    SplitParts(line[1..], ' ', NUL);
    assert line == [line[0]] + line[1..];
    assert fields[4] == r.status + r.level;
    assert HeaderFields(r) == fields;
    assert forall k | 0 <= k < 5 :: ' ' !in fields[k] && NUL !in fields[k];
    assert forall c | c in r.status :: c in fields[4];
    assert forall c | c in r.level :: c in fields[4];
  }

  lemma {:induction false} SplitParts(s: string, c: char, d: char)
    requires d !in s
    ensures forall k | 0 <= k < |Split(s, c)| :: d !in Split(s, c)[k]
  {
    if s != "" {
      SplitParts(s[1..], c, d);
    }
  }

  /** Every record read is well formed and its lines are the first ones of the input. */
  lemma {:induction false} LinesRead(lines: seq<string>)
    requires forall line | line in lines :: NUL !in line
    requires ParseLines(lines).Some?
    ensures var records := ParseLines(lines).value;
      (forall r | r in records :: WellFormed(r)) && AllLines(records) <= lines
    decreases |lines|
  {
    hide ParseHeader, HeaderFields, Join, WellFormed;
    var records := ParseLines(lines).value;
    if records != [] {
      var head := ParseHeader(lines[0]);
      var n := if head.twoPaths then 3 else 2;
      assert lines[0] in lines;
      HeaderRead(lines[0]);
      var r := OneRecord(lines, head.record, head.twoPaths);
      LinesRead(lines[n..]);
      assert records == [r] + ParseLines(lines[n..]).value;
      assert records[1..] == ParseLines(lines[n..]).value;
      assert lines == lines[..n] + lines[n..];
    }
  }

  /** The first record, its two or three lines, and the rest. */
  lemma OneRecord(lines: seq<string>, head: Status, two: bool) returns (r: Status)
    requires forall line | line in lines :: NUL !in line
    requires lines != [] && lines[0] != "" && ParseHeader(lines[0]) == Header(head, two)
    requires ParseLines(lines) != Some([])
    requires lines[0] == ":" + Join(HeaderFields(head), ' ') && two == IsCopyOrRename(head.status)
    requires head.path == head.srcPath == ""
    requires WellFormed(head.(path := "x", srcPath := if two then "x" else ""))
    ensures var n := if two then 3 else 2;
      && |lines| >= n && LinesOf(r) == lines[..n] && WellFormed(r)
      && ParseLines(lines) == Prepend(r, ParseLines(lines[n..]))
  {
    hide ParseHeader, Join, WellFormed, ParseLines, ParsePath, ParseDest, LinesOf, HeaderFields, Prepend;
    if two {
      UnfoldTwo(lines, head);
      assert lines[1] in lines && lines[2] in lines;
      r := head.(srcPath := lines[1], path := lines[2]);
    } else {
      UnfoldOne(lines, head);
      assert lines[1] in lines;
      r := head.(path := lines[1]);
    }
    ReadBack(lines, head, r);
  }

  lemma ReadBack(lines: seq<string>, head: Status, r: Status)
    requires lines != [] && lines[0] == ":" + Join(HeaderFields(head), ' ')
    requires |lines| >= if IsCopyOrRename(head.status) then 3 else 2
    requires if IsCopyOrRename(head.status)
             then lines[1] != "" && NUL !in lines[1] && r == head.(srcPath := lines[1], path := lines[2])
             else head.srcPath == "" && r == head.(path := lines[1])
    requires r.path != "" && NUL !in r.path
    requires WellFormed(head.(path := "x", srcPath := if IsCopyOrRename(head.status) then "x" else ""))
    ensures WellFormed(r) && LinesOf(r) == lines[..if IsCopyOrRename(head.status) then 3 else 2]
  {
    hide Join, WellFormed;
    SamePaths(head, r, IsCopyOrRename(head.status));
  }

  lemma UnfoldTwo(lines: seq<string>, head: Status)
    requires lines != [] && lines[0] != "" && ParseHeader(lines[0]) == Header(head, true)
    ensures ParseLines(lines) ==
      if |lines| < 3 || lines[1] == "" || lines[2] == "" then Some([])
      else Prepend(head.(srcPath := lines[1], path := lines[2]), ParseLines(lines[3..]))
  {
    hide ParseHeader, Prepend, ParseLines, ParsePath, ParseDest, Pending;
    PendingNow(BLANK, false, false, lines);
    PendingStep(true, false, false, BLANK, lines);
    PendingNow(head, true, true, lines[1..]);
    if |lines| >= 2 {
      var src := head.(path := lines[1]);
      assert lines[1..][1..] == lines[2..];
      PendingStep(false, true, true, head, lines[1..]);
      PendingNow(src, false, true, lines[2..]);
      if |lines| >= 3 {
        assert lines[2..][1..] == lines[3..];
        PendingStep(false, false, true, src, lines[2..]);
        PendingNow(src, false, false, lines[3..]);
      }
    }
  }

  lemma UnfoldOne(lines: seq<string>, head: Status)
    requires lines != [] && lines[0] != "" && ParseHeader(lines[0]) == Header(head, false)
    ensures ParseLines(lines) ==
      if |lines| < 2 || lines[1] == "" then Some([]) else Prepend(head.(path := lines[1]), ParseLines(lines[2..]))
  {
    hide ParseHeader, Prepend, ParseLines, ParsePath, ParseDest, Pending;
    PendingNow(BLANK, false, false, lines);
    PendingStep(true, false, false, BLANK, lines);
    PendingNow(head, true, false, lines[1..]);
    if |lines| >= 2 {
      assert lines[1..][1..] == lines[2..];
      PendingStep(false, true, false, head, lines[1..]);
      PendingNow(head, false, false, lines[2..]);
    }
  }

  lemma SamePaths(head: Status, r: Status, two: bool)
    requires WellFormed(head.(path := "x", srcPath := if two then "x" else "")) && two == IsCopyOrRename(head.status)
    requires r == head.(path := r.path, srcPath := r.srcPath)
    requires r.path != "" && NUL !in r.path && NUL !in r.srcPath && (r.srcPath != "" <==> two)
    ensures WellFormed(r) && HeaderFields(r) == HeaderFields(head)
  {
    var h := head.(path := "x", srcPath := if two then "x" else "");
    assert [r.srcMode, r.destMode, r.srcOID, r.destOID, r.status, r.level]
        == [h.srcMode, h.destMode, h.srcOID, h.destOID, h.status, h.level];
  }

  lemma {:induction false} TerminatedJoin(lines: seq<string>)
    requires lines != []
    ensures Terminated(lines) == Join(lines, NUL) + [NUL]
  {
    if |lines| > 1 { TerminatedJoin(lines[1..]); }
  }

  lemma {:induction false} TerminatedPrefix(a: seq<string>, b: seq<string>)
    requires a <= b
    ensures Terminated(a) <= Terminated(b)
  {
    if a != [] {
      assert a[1..] <= b[1..];
      TerminatedPrefix(a[1..], b[1..]);
    }
  }

  /** Whatever the input, the records read are well formed and their encoding is
      the beginning of it: nothing is skipped, swapped or made up. */
  lemma ParseReadsPrefix(out: string)
    requires Parse(out).Some?
    ensures forall r | r in Parse(out).value :: WellFormed(r)
    ensures Encode(Parse(out).value) <= out + [NUL]
  {
    hide Split, Join, ParseLines, Terminated;
    var lines := Split(out, NUL);
    LinesRead(lines);
    TerminatedPrefix(AllLines(Parse(out).value), lines);
    TerminatedJoin(lines);
    JoinSplit(out, NUL);
  }

  // -------------------------------------------------------------- the panic

  /** The header reached after some well-formed records panics. */
  ghost predicate PanicsAfter(lines: seq<string>, records: seq<Status>, header: string) {
    && (forall r | r in records :: WellFormed(r))
    && header != "" && ParseHeader(header).Panic?
    && AllLines(records) + [header] <= lines
  }

  /** Parsing panics exactly when, after the lines of well-formed records, a header comes
      whose status field is empty. */
  lemma PanicsExactlyWhen(out: string)
    ensures Parse(out).None? <==> exists records, header :: PanicsAfter(Split(out, NUL), records, header)
  {
    hide Split, ParseLines, PanicsAfter;
    var lines := Split(out, NUL);
    assert forall line | line in lines :: NUL !in line;
    if Parse(out).None? {
      var records, header := PanicFound(lines);
    }
    if exists records, header :: PanicsAfter(lines, records, header) {
      var records, header :| PanicsAfter(lines, records, header);
      PanicReached(lines, records, header);
      assert PanicsAfter(Split(out, NUL), records, header);
    }
  }

  lemma {:induction false} PanicReached(lines: seq<string>, records: seq<Status>, header: string)
    requires PanicsAfter(lines, records, header)
    ensures ParseLines(lines).None?
  {
    hide WellFormed, AllLines, ParseHeader, Before;
    var n := |AllLines(records)|;
    var rest := lines[n..];
    assert lines == AllLines(records) + rest && rest[0] == header;
    LinesBack(records, rest);
    assert Before(records, None) == None by { NoneBefore(records); }
  }

  lemma NoneBefore(records: seq<Status>)
    ensures Before(records, None) == None
  {
  }

  lemma {:induction false} PanicFound(lines: seq<string>) returns (records: seq<Status>, header: string)
    requires (forall line | line in lines :: NUL !in line) && ParseLines(lines).None?
    ensures PanicsAfter(lines, records, header)
    decreases |lines|
  {
    hide WellFormed, LinesOf, HeaderFields, Join, ParseHeader;
    var head := ParseHeader(lines[0]);
    assert lines[0] in lines;
    if head.Panic? {
      records, header := [], lines[0];
      assert AllLines([]) + [header] == [lines[0]] <= lines;
    } else {
      var n := if head.twoPaths then 3 else 2;
      HeaderRead(lines[0]);
      var r := OneRecord(lines, head.record, head.twoPaths);
      var more, last := PanicFound(lines[n..]);
      records, header := [r] + more, last;
      assert lines == lines[..n] + lines[n..];
      assert records[1..] == more;
      assert AllLines(records) + [header] == lines[..n] + (AllLines(more) + [header]);
    }
  }
}
