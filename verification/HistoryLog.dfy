/** `history.go`: the streaming scan of a git log, with bounded lines and one report per secret. */
module HistoryLog {
  import opened GitLog
  import opened HistoryTrace
  import opened HistoryExact

  /** `security.Match`. */
  datatype Match = Match(ruleID: string, level: string, confidence: string, message: string)

  /** `history.Finding`. */
  datatype Finding = Finding(secret: Match, path: string, line: nat, commit: string)

  /** `security.Scanner`, whose rules are not part of this model. */
  datatype Scanner = Scanner(skips: string -> bool, scan: string -> seq<Match>)

  function KeyOf(m: Match, file: string): string {
    m.ruleID + "|" + file + "|" + m.message
  }

  function KeyOfFinding(f: Finding): string {
    KeyOf(f.secret, f.path)
  }

  /** The findings of some matches on one added line. */
  function FindingsAt(matches: seq<Match>, e: Event): seq<Finding> {
    seq(|matches|, i requires 0 <= i < |matches| => Finding(matches[i], e.file, e.line, e.commit))
  }

  function EventFindings(scanner: Scanner, e: Event): seq<Finding> {
    if scanner.skips(e.file) then [] else FindingsAt(scanner.scan(e.content), e)
  }

  /** Every finding of a log, before repeats are dropped. */
  function AllFindings(scanner: Scanner, events: seq<Event>): seq<Finding> {
    if events == [] then []
    else AllFindings(scanner, events[..|events| - 1]) + EventFindings(scanner, events[|events| - 1])
  }

  function Keys(findings: seq<Finding>): set<string> {
    set f | f in findings :: KeyOfFinding(f)
  }

  /** The findings that no earlier one has the key of. */
  function FirstOfEachKey(findings: seq<Finding>): seq<Finding> {
    if findings == [] then []
    else
      var init, last := findings[..|findings| - 1], findings[|findings| - 1];
      FirstOfEachKey(init) + (if KeyOfFinding(last) in Keys(init) then [] else [last])
  }

  lemma FirstSnoc(findings: seq<Finding>, f: Finding)
    ensures FirstOfEachKey(findings + [f])
         == FirstOfEachKey(findings) + (if KeyOfFinding(f) in Keys(findings) then [] else [f])
    ensures Keys(findings + [f]) == Keys(findings) + {KeyOfFinding(f)}
  {
    hide KeyOfFinding;
    assert (findings + [f])[..|findings|] == findings;
    forall k ensures k in Keys(findings + [f]) <==> k in Keys(findings) + {KeyOfFinding(f)} {
      if k == KeyOfFinding(f) {
        assert f in findings + [f];
      }
      if k in Keys(findings) {
        var g :| g in findings && KeyOfFinding(g) == k;
        assert g in findings + [f];
      }
    }
  }

  lemma KeysHold(findings: seq<Finding>)
    ensures forall f <- findings :: KeyOfFinding(f) in Keys(findings)
  {
  }

  lemma {:induction false} SameKeys(findings: seq<Finding>)
    ensures Keys(FirstOfEachKey(findings)) == Keys(findings)
  {
    if findings != [] {
      var init, last := findings[..|findings| - 1], findings[|findings| - 1];
      assert findings == init + [last];
      SameKeys(init);
      hide *;
      FirstSnoc(init, last);
      var firsts, key := FirstOfEachKey(init), KeyOfFinding(last);
      if key in Keys(init) {
        assert firsts + [] == firsts && Keys(init) + {key} == Keys(init);
      } else {
        FirstSnoc(firsts, last);
      }
    }
  }

  ghost predicate KeysDiffer(findings: seq<Finding>) {
    forall i, j :: 0 <= i < j < |findings| ==> KeyOfFinding(findings[i]) != KeyOfFinding(findings[j])
  }

  lemma {:induction false} FirstsDiffer(findings: seq<Finding>)
    ensures KeysDiffer(FirstOfEachKey(findings))
  {
    if findings != [] {
      var init := findings[..|findings| - 1];
      FirstsDiffer(init);
      SameKeys(init);
      KeysHold(FirstOfEachKey(init));
      hide Keys, KeyOfFinding;
    }
  }

  /** No earlier finding has the key of `f`. */
  ghost predicate IsFirst(findings: seq<Finding>, f: Finding) {
    exists k :: 0 <= k < |findings| && findings[k] == f && KeyOfFinding(f) !in Keys(findings[..k])
  }

  lemma IsFirstSnoc(findings: seq<Finding>, last: Finding, f: Finding)
    requires IsFirst(findings, f) || (f == last && KeyOfFinding(f) !in Keys(findings))
    ensures IsFirst(findings + [last], f)
  {
    hide Keys, KeyOfFinding;
    var all := findings + [last];
    if IsFirst(findings, f) {
      var k :| 0 <= k < |findings| && findings[k] == f && KeyOfFinding(f) !in Keys(findings[..k]);
      assert all[..k] == findings[..k] && all[k] == f;
    } else {
      assert all[..|findings|] == findings && all[|findings|] == f;
    }
  }

  /** Each key that was found is reported exactly once, with its first finding. */
  lemma {:induction false} ReportedOnce(findings: seq<Finding>)
    ensures Keys(FirstOfEachKey(findings)) == Keys(findings) && KeysDiffer(FirstOfEachKey(findings))
    ensures forall f <- FirstOfEachKey(findings) :: IsFirst(findings, f)
  {
    SameKeys(findings);
    FirstsDiffer(findings);
    hide Keys, KeyOfFinding, KeysDiffer;
    if findings != [] {
      var init, last := findings[..|findings| - 1], findings[|findings| - 1];
      assert findings == init + [last];
      ReportedOnce(init);
      FirstSnoc(init, last);
      hide IsFirst;
      forall f <- FirstOfEachKey(findings) ensures IsFirst(findings, f) {
        IsFirstSnoc(init, last, f);
      }
    }
  }

  // ----- the parser -----

  /** `logParser`. */
  class Parser {
    const scanner: Scanner
    var findings: seq<Finding>
    var commit: string
    var file: string
    var newLine: nat
    var skipFile: bool
    var seen: set<string>
    var commits: set<string>
    /** Where a reader of the same lines would be, and everything found so far. */
    ghost var position: Position
    ghost var found: seq<Finding>

    ghost predicate Valid()
      reads this
    {
      && commit == position.commit && file == position.file && newLine == position.newLine && commits == position.commits
      && (file != "" ==> skipFile == scanner.skips(file))
      && found == AllFindings(scanner, position.events)
      && findings == FirstOfEachKey(found) && seen == Keys(found)
    }

    constructor (scanner: Scanner)
      ensures Valid() && position == START && this.scanner == scanner
    {
      this.scanner := scanner;
      findings, commit, file, newLine, skipFile, seen, commits := [], "", "", 0, false, {}, {};
      position, found := START, [];
    }

    /** The loop of `recordAdded`. */
    method Report(matches: seq<Match>)
      requires findings == FirstOfEachKey(found) && seen == Keys(found)
      modifies this`findings, this`seen, this`found
      ensures findings == FirstOfEachKey(found) && seen == Keys(found)
      ensures found == old(found) + FindingsAt(matches, Event(commit, file, newLine, ""))
    {
      hide FirstOfEachKey, Keys;
      ghost var e := Event(commit, file, newLine, "");
      assert FindingsAt(matches[..0], e) == [];
      for i := 0 to |matches|
        invariant findings == FirstOfEachKey(found) && seen == Keys(found)
        invariant found == old(found) + FindingsAt(matches[..i], e)
      {
        var f := Finding(matches[i], file, newLine, commit);
        assert FindingsAt(matches[..i + 1], e) == FindingsAt(matches[..i], e) + [f];
        FirstSnoc(found, f);
        assert found + [f] == old(found) + FindingsAt(matches[..i + 1], e);
        found := found + [f];
        var key := KeyOf(matches[i], file);
        if key in seen {
          assert seen + {key} == seen;
          continue;
        }
        seen := seen + {key};
        findings := findings + [f];
      }
      assert matches[..|matches|] == matches;
    }

    method SetFile(target: string)
      modifies this`file, this`skipFile
      ensures file == FileOf(target) && (file != "" ==> skipFile == scanner.skips(file))
    {
      if target == "/dev/null" {
        file, skipFile := "", true;
        return;
      }
      file := if "b/" <= target then target[2..] else target;
      skipFile := scanner.skips(file);
    }

    method RecordAdded(content: string)
      requires Valid()
      modifies this`findings, this`seen, this`found
      ensures findings == FirstOfEachKey(found) && seen == Keys(found)
      ensures found == AllFindings(scanner, if file == "" then position.events
                                            else position.events + [Event(commit, file, newLine, content)])
    {
      if skipFile || file == "" {
        hide FirstOfEachKey, Keys, FindingsAt;
        FoundNext(scanner, position.events, Event(commit, file, newLine, content));
        return;
      }
      hide FirstOfEachKey, Keys, FindingsAt;
      FoundNext(scanner, position.events, Event(commit, file, newLine, content));
      SameFindings(scanner.scan(content), Event(commit, file, newLine, content), Event(commit, file, newLine, ""));
      Report(scanner.scan(content));
    }

    /** `handleLine`. */
    method HandleLine(line: string)
      requires Valid()
      modifies this
      ensures Valid() && position == Step(old(position), Classify(line))
    {
      hide Classify, FirstOfEachKey, Keys, FindingsAt, FileOf, AllFindings;
      match Classify(line) {
        case CommitLine(hash) =>
          commit := hash;
          if hash != "" {
            commits := commits + {hash};
          }
        case DiffLine =>
          file, skipFile := "", false;
        case TargetLine(target) =>
          SetFile(target);
        case HunkLine(start) =>
          if start.Some? {
            newLine := start.value;
          }
        case SilentLine =>
        case AddedLine(content) =>
          RecordAdded(content);
          newLine := newLine + 1;
        case OtherLine =>
          newLine := newLine + 1;
      }
      position := Step(position, Classify(line));
    }
  }

  lemma FoundNext(scanner: Scanner, events: seq<Event>, e: Event)
    ensures AllFindings(scanner, events + [e])
         == AllFindings(scanner, events) + (if scanner.skips(e.file) then [] else FindingsAt(scanner.scan(e.content), e))
  {
    assert (events + [e])[..|events|] == events;
  }

  lemma SameFindings(matches: seq<Match>, e: Event, e': Event)
    requires e' == e.(content := e'.content)
    ensures FindingsAt(matches, e) == FindingsAt(matches, e')
  {
  }

  // ----- bounded lines -----

  const MAX_LINE: nat := 65536

  /** How far the first line of a stream goes, its line end included. */
  function LineEnd(s: string): (end: nat)
    ensures end <= |s| && (s != "" ==> end > 0)
    ensures '\n' !in s[..if end > 0 then end - 1 else 0]
    ensures end == |s| || (end > 0 && s[end - 1] == '\n')
  {
    if s == "" then 0 else if s[0] == '\n' then 1 else 1 + LineEnd(s[1..])
  }

  predicate HasLineEnd(s: string) {
    LineEnd(s) > 0 && s[LineEnd(s) - 1] == '\n'
  }

  function Bounded(line: string): string {
    if |line| <= MAX_LINE then line else line[..MAX_LINE]
  }

  /** What is kept is the line, or its first 64 KiB. */
  lemma BoundedKeeps(line: string)
    ensures var kept := Bounded(line);
      kept <= line && |kept| <= 64 * 1024 && (kept == line || |kept| == 64 * 1024)
  {
  }

  /** `bufio.Reader.ReadSlice`: up to the line end, or a buffer full of a longer line, or what is left. */
  function SliceLength(s: string): nat {
    if LineEnd(s) > MAX_LINE then MAX_LINE else LineEnd(s)
  }

  lemma {:induction false} LineEndAfter(s: string, n: nat)
    requires n < LineEnd(s)
    ensures n + LineEnd(s[n..]) == LineEnd(s)
  {
    if n > 0 {
      LineEndAfter(s[1..], n - 1);
      assert s[1..][n - 1..] == s[n..];
    } else {
      assert s[0..] == s;
    }
  }

  /** One fragment of a line whose first `pos` characters were read. */
  lemma FragmentReads(stream: string, pos: nat, rest: string)
    requires pos <= LineEnd(stream) && (pos == 0 || pos < LineEnd(stream)) && rest == stream[pos..]
    ensures var n := SliceLength(rest);
      && n <= |rest| && rest[..n] == stream[pos..pos + n] && rest[n..] == stream[pos + n..]
      && (n == 0 ==> rest == "") && pos + LineEnd(rest) == LineEnd(stream)
  {
    LineGoesOn(stream, pos);
    var n := SliceLength(rest);
    hide LineEnd, SliceLength;
    SliceOfSuffix(stream, pos, n);
  }

  lemma SliceOfSuffix(s: string, pos: nat, n: nat)
    requires pos + n <= |s|
    ensures s[pos..][..n] == s[pos..pos + n] && s[pos..][n..] == s[pos + n..]
  {
  }

  /** `readBoundedLine`: takes exactly one line off the stream and keeps at most 64 KiB of it. */
  method ReadBoundedLine(stream: string) returns (line: string, rest: string, eof: bool)
    ensures eof <==> !HasLineEnd(stream)
    ensures stream[..LineEnd(stream)] + rest == stream
    ensures line == Bounded(stream[..LineEnd(stream)])
  {
    hide LineEnd, Bounded, HasLineEnd;
    var pos: nat := 0;
    line, rest, eof := "", stream, false;
    NothingBounded(stream);
    while true
      invariant pos <= LineEnd(stream) && rest == stream[pos..]
      invariant pos == 0 || pos < LineEnd(stream)
      invariant line == Bounded(stream[..pos])
      decreases |rest|
    {
      FragmentReads(stream, pos, rest);
      BoundedGrows(stream, pos, SliceLength(rest));
      var n := SliceLength(rest);
      var fragment := rest[..n];
      var full := LineEnd(rest) > MAX_LINE;
      var remaining := MAX_LINE - |line|;
      if remaining > 0 {
        var kept := if |fragment| < remaining then |fragment| else remaining;
        line := line + fragment[..kept];
      }
      pos, rest := pos + n, rest[n..];
      if !full {
        LineDone(stream, pos - n, n);
        eof := fragment == "" || fragment[|fragment| - 1] != '\n';
        return;
      }
    }
  }

  lemma LineDone(stream: string, pos: nat, n: nat)
    requires pos + n == LineEnd(stream) && (pos == 0 || n > 0)
    ensures var fragment := stream[pos..pos + n];
      HasLineEnd(stream) <==> fragment != "" && fragment[|fragment| - 1] == '\n'
    ensures stream[..LineEnd(stream)] + stream[pos + n..] == stream
  {
    hide LineEnd;
  }

  lemma NothingBounded(stream: string)
    ensures Bounded(stream[..0]) == "" && stream[0..] == stream
  {
  }

  lemma LineGoesOn(stream: string, pos: nat)
    requires pos <= LineEnd(stream) && (pos == 0 || pos < LineEnd(stream))
    ensures pos + LineEnd(stream[pos..]) == LineEnd(stream)
  {
    if pos < LineEnd(stream) {
      LineEndAfter(stream, pos);
    }
  }

  lemma BoundedGrows(s: string, pos: nat, n: nat)
    requires pos + n <= |s|
    ensures var line := Bounded(s[..pos]);
      var room := MAX_LINE - |line|;
      room >= 0 && Bounded(s[..pos + n]) == line + s[pos..pos + n][..if n < room then n else room]
  {
    assert s[..pos + n] == s[..pos] + s[pos..pos + n];
  }

  /** The lines of a stream, line ends included, each cut to 64 KiB. */
  function BoundedLines(stream: string): seq<string>
    decreases |stream|
  {
    if stream == "" then [] else [Bounded(stream[..LineEnd(stream)])] + BoundedLines(stream[LineEnd(stream)..])
  }

  /** `parseLog`. */
  method ParseLog(stream: string, scanner: Scanner) returns (findings: seq<Finding>, commitsScanned: nat)
    ensures var end := Run(START, BoundedLines(stream));
      findings == FirstOfEachKey(AllFindings(scanner, end.events)) && commitsScanned == |end.commits|
  {
    var parser := new Parser(scanner);
    var rest, eof := stream, false;
    while !eof
      invariant fresh(parser) && parser.Valid() && parser.scanner == scanner
      invariant Run(parser.position, BoundedLines(rest)) == Run(START, BoundedLines(stream))
      invariant eof ==> rest == ""
      decreases |rest|, !eof
    {
      hide FirstOfEachKey, Keys, AllFindings, Classify;
      var line, after, ended := ReadBoundedLine(rest);
      NextLine(parser.position, rest);
      ghost var n := LineEnd(rest);
      assert rest[n..] == after;
      hide Run, BoundedLines;
      if |line| > 0 {
        parser.HandleLine(Chomp(line));
      }
      rest, eof := after, ended;
    }
    RunNone(parser.position);
    return parser.findings, |parser.commits|;
  }

  lemma NextLine(p: Position, rest: string)
    ensures rest == "" ==> Run(p, BoundedLines(rest)) == p && Bounded(rest[..LineEnd(rest)]) == "" && rest[LineEnd(rest)..] == ""
    ensures rest != "" ==>
      && Bounded(rest[..LineEnd(rest)]) != ""
      && Run(p, BoundedLines(rest)) == Run(Step(p, Read(Bounded(rest[..LineEnd(rest)]))), BoundedLines(rest[LineEnd(rest)..]))
  {
    hide Read, Step;
    if rest != "" {
      RunOne(p, Bounded(rest[..LineEnd(rest)]), BoundedLines(rest[LineEnd(rest)..]));
    }
  }

  // ----- a printed log, scanned -----

  function TextOf(lines: seq<string>): string {
    if lines == [] then "" else lines[0] + "\n" + TextOf(lines[1..])
  }

  ghost predicate Fit(lines: seq<string>) {
    forall line <- lines :: '\n' !in line && |line| < MAX_LINE
  }

  lemma {:induction false} LineEndOf(line: string, rest: string)
    requires '\n' !in line
    ensures LineEnd(line + "\n" + rest) == |line| + 1
  {
    if line != "" {
      assert (line + "\n" + rest)[1..] == line[1..] + "\n" + rest;
      LineEndOf(line[1..], rest);
    }
  }

  lemma {:induction false} RunText(p: Position, lines: seq<string>)
    requires Fit(lines)
    ensures Run(p, BoundedLines(TextOf(lines))) == Run(p, lines)
    decreases |lines|
  {
    if lines != [] {
      var line, rest := lines[0], TextOf(lines[1..]);
      LineEndOf(line, rest);
      var text := line + "\n" + rest;
      assert text[..|line| + 1] == line + "\n" && text[|line| + 1..] == rest;
      assert Chomp(line + "\n") == Chomp(line) by {
        assert (line + "\n")[..|line|] == line;
      }
      NextLine(p, text);
      hide Step, Classify, BoundedLines, Chomp, LineEnd;
      RunText(Step(p, Read(line)), lines[1..]);
    }
  }

  /** Scanning the text that git prints for a readable log finds, at every added line, what the scanner finds there, once
      per rule, file and message, under the true commit, file and line; and it counts the commits. */
  lemma PrintedLogScanned(log: seq<LogCommit>, scanner: Scanner)
    requires GoodLog(log) && HonestLog(log) && ReadableLog(log) && Fit(PrintLog(log))
    ensures var end := Run(START, BoundedLines(TextOf(PrintLog(log))));
      && FirstOfEachKey(AllFindings(scanner, end.events)) == FirstOfEachKey(AllFindings(scanner, LogEvents(log, NameOf)))
      && end.commits == Hashes(log)
  {
    RunText(START, PrintLog(log));
    HonestLogReadsBack(START, log);
    ReadableNames(log);
    hide FirstOfEachKey, AllFindings;
    assert START.events + LogEvents(log, NameSeen) == LogEvents(log, NameSeen);
    assert START.commits + Hashes(log) == Hashes(log);
  }
}
