/** Reading a `git log -p -U0` back: every added line with its commit, file and line number. */
module HistoryTrace {
  import opened Text
  import opened Wrappers
  import opened GitLog

  /** An added line as the scan sees it. */
  datatype Event = Event(commit: string, file: string, line: nat, content: string)

  /** Where a reader of the log is, and what it has seen: the added lines of named files, and the commits. */
  datatype Position = Position(commit: string, file: string, newLine: nat, events: seq<Event>, commits: set<string>)

  const START := Position("", "", 0, [], {})

  /** `strings.TrimRight` of line ends. */
  function Chomp(s: string): string {
    if s != "" && (s[|s| - 1] == '\n' || s[|s| - 1] == '\r') then Chomp(s[..|s| - 1]) else s
  }

  function FileOf(target: string): string {
    if target == "/dev/null" then "" else if "b/" <= target then target[2..] else target
  }

  function Step(p: Position, line: LogLine): Position {
    match line
    case CommitLine(hash) => p.(commit := hash, commits := if hash == "" then p.commits else p.commits + {hash})
    case DiffLine => p.(file := "")
    case TargetLine(target) => p.(file := FileOf(target))
    case HunkLine(start) => if start.Some? then p.(newLine := start.value) else p
    case SilentLine => p
    case AddedLine(content) =>
      p.(newLine := p.newLine + 1,
         events := if p.file == "" then p.events else p.events + [Event(p.commit, p.file, p.newLine, content)])
    case OtherLine => p.(newLine := p.newLine + 1)
  }

  function Read(line: string): LogLine {
    Classify(Chomp(line))
  }

  function Run(p: Position, lines: seq<string>): Position
    decreases |lines|
  {
    if lines == [] then p else Run(Step(p, Read(lines[0])), lines[1..])
  }

  lemma {:induction false} RunConcat(p: Position, a: seq<string>, b: seq<string>)
    ensures Run(p, a + b) == Run(Run(p, a), b)
    decreases |a|
  {
    hide Read, Step;
    if a == [] {
      assert a + b == b;
    } else {
      assert (a + b)[1..] == a[1..] + b;
      RunConcat(Step(p, Read(a[0])), a[1..], b);
    }
  }

  // ----- what git prints -----

  datatype LogHunk = LogHunk(oldStart: nat, start: nat, context: string, removed: seq<string>, added: seq<string>,
                             oldNoNewline: bool, newNoNewline: bool)

  /** The new name and how git prints it: as it is, or between quotes with its unusual characters spelled out, which
      git does unless told otherwise to quotes, backslashes and whatever is not printable ASCII. */
  datatype NewName = Deleted | Plain(path: string) | Quoted(path: string, spelling: string)

  /** `header` is the extended header between the names. */
  datatype FilePatch = FilePatch(names: string, header: seq<string>, oldName: string, newName: NewName, hunks: seq<LogHunk>)

  datatype LogCommit = LogCommit(hash: string, gap: seq<string>, files: seq<FilePatch>)

  function Prefixed(mark: string, lines: seq<string>): seq<string> {
    if lines == [] then [] else [mark + lines[0]] + Prefixed(mark, lines[1..])
  }

  function NoNewline(here: bool): seq<string> {
    if here then ["\\ No newline at end of file"] else []
  }

  function PrintHunk(h: LogHunk): seq<string> {
    [PrintHeader(h.oldStart, |h.removed|, h.start, |h.added|, h.context)]
    + (Prefixed("-", h.removed) + (NoNewline(h.oldNoNewline) + (Prefixed("+", h.added) + NoNewline(h.newNoNewline))))
  }

  function PrintHunks(hunks: seq<LogHunk>): seq<string> {
    if hunks == [] then [] else PrintHunk(hunks[0]) + PrintHunks(hunks[1..])
  }

  /** A tab marks the end of a plain name that has a space. */
  function Target(name: NewName): string {
    match name
    case Deleted => "/dev/null"
    case Plain(path) => "b/" + (path + (if ' ' in path then "\t" else ""))
    case Quoted(_, spelling) => "\"" + spelling + "\""
  }

  function OldNameLine(f: FilePatch): string {
    "--- " + f.oldName
  }

  function NewNameLine(f: FilePatch): string {
    TARGET_MARKER + Target(f.newName)
  }

  /** A file whose content did not change has no name lines and no hunks. */
  function PrintFile(f: FilePatch): seq<string> {
    [DIFF_MARKER + (" " + f.names)]
    + (f.header + (if f.hunks == [] then [] else [OldNameLine(f)] + ([NewNameLine(f)] + PrintHunks(f.hunks))))
  }

  function PrintFiles(files: seq<FilePatch>): seq<string> {
    if files == [] then [] else PrintFile(files[0]) + PrintFiles(files[1..])
  }

  function PrintCommit(c: LogCommit): seq<string> {
    [COMMIT_MARKER + c.hash] + (c.gap + PrintFiles(c.files))
  }

  function PrintLog(log: seq<LogCommit>): seq<string> {
    if log == [] then [] else PrintCommit(log[0]) + PrintLog(log[1..])
  }

  /** Lines such as `index` and `new file mode`, and empty lines, that the reader takes for context. */
  ghost predicate Neutral(lines: seq<string>) {
    forall line <- lines :: Read(line) == OtherLine
  }

  ghost predicate GoodHunk(h: LogHunk) {
    h.start <= MAX_INT
  }

  ghost predicate GoodName(name: NewName) {
    match name
    case Deleted => true
    case Plain(path) => path != ""
    case Quoted(path, spelling) => path != "" && |spelling| >= |path|
  }

  ghost predicate GoodFile(f: FilePatch) {
    && Neutral(f.header) && GoodName(f.newName)
    && (forall h <- f.hunks :: GoodHunk(h) && (f.newName.Deleted? ==> h.added == []))
  }

  ghost predicate GoodCommit(c: LogCommit) {
    c.hash != "" && TrimSpace(Chomp(c.hash)) == c.hash && Neutral(c.gap) && forall f <- c.files :: GoodFile(f)
  }

  ghost predicate GoodLog(log: seq<LogCommit>) {
    forall c <- log :: GoodCommit(c)
  }

  // ----- what a log adds -----

  /** The true name of a file, empty for a deleted one. */
  function NameOf(name: NewName): string {
    if name.Deleted? then "" else name.path
  }

  /** The name that the reader takes from the printed one. */
  function NameSeen(name: NewName): string {
    FileOf(TrimSpace(Chomp(Target(name))))
  }

  /** A line added to a file that has a name. */
  function EventsAt(commit: string, file: string, line: nat, content: string): seq<Event> {
    if file == "" then [] else [Event(commit, file, line, content)]
  }

  function HunkEvents(commit: string, file: string, start: nat, added: seq<string>): seq<Event>
    decreases |added|
  {
    if added == [] then []
    else EventsAt(commit, file, start, Chomp(added[0])) + HunkEvents(commit, file, start + 1, added[1..])
  }

  function FileEvents(commit: string, file: string, hunks: seq<LogHunk>): seq<Event> {
    if hunks == [] then []
    else HunkEvents(commit, file, hunks[0].start, hunks[0].added) + FileEvents(commit, file, hunks[1..])
  }

  function CommitEvents(commit: string, files: seq<FilePatch>, name: NewName -> string): seq<Event> {
    if files == [] then []
    else FileEvents(commit, name(files[0].newName), files[0].hunks) + CommitEvents(commit, files[1..], name)
  }

  /** Every line the commits add to files that have a name, each with its commit, file and number in the new file. */
  function LogEvents(log: seq<LogCommit>, name: NewName -> string): seq<Event> {
    if log == [] then [] else CommitEvents(log[0].hash, log[0].files, name) + LogEvents(log[1..], name)
  }

  function Hashes(log: seq<LogCommit>): set<string> {
    if log == [] then {} else {log[0].hash} + Hashes(log[1..])
  }

  /** An added line that begins with `++ ` looks, with its mark, like the name line of a file. */
  predicate Disguised(content: string) {
    TARGET_MARKER[1..] <= Chomp(content)
  }

  predicate HonestHunk(h: LogHunk) {
    forall content <- h.added :: !Disguised(content)
  }

  predicate HonestFile(f: FilePatch) {
    forall h <- f.hunks :: HonestHunk(h)
  }

  predicate HonestCommit(c: LogCommit) {
    forall f <- c.files :: HonestFile(f)
  }

  predicate HonestLog(log: seq<LogCommit>) {
    forall c <- log :: HonestCommit(c)
  }

  /** A name that is printed plainly and does not end in a blank. */
  predicate Readable(name: NewName) {
    name.Plain? && name.path != "" && !IsSpace(name.path[|name.path| - 1])
  }

  predicate Adds(f: FilePatch) {
    exists h <- f.hunks :: h.added != []
  }

  predicate ReadableFile(f: FilePatch) {
    Adds(f) ==> Readable(f.newName)
  }

  predicate ReadableCommit(c: LogCommit) {
    forall f <- c.files :: ReadableFile(f)
  }

  /** Every file that gets lines has a readable name. */
  predicate ReadableLog(log: seq<LogCommit>) {
    forall c <- log :: ReadableCommit(c)
  }

  // ----- how the reader takes each printed line -----

  lemma {:induction false} ChompAfter(mark: string, s: string)
    requires mark != "" && mark[|mark| - 1] != '\n' && mark[|mark| - 1] != '\r'
    ensures Chomp(mark + s) == mark + Chomp(s)
  {
    if s == "" {
      assert mark + s == mark;
    } else {
      assert (mark + s)[..|mark + s| - 1] == mark + s[..|s| - 1];
      ChompAfter(mark, s[..|s| - 1]);
    }
  }

  lemma ReadAdded(content: string)
    ensures Read("+" + content)
         == if Disguised(content) then TargetLine(TrimSpace(Chomp(content)[3..])) else AddedLine(Chomp(content))
  {
    ChompAfter("+", content);
    hide Chomp, TrimSpace, Classify;
    ClassifyAdded(Chomp(content));
    assert "+" == ['+'];
  }

  lemma ReadRemoved(content: string)
    ensures Read("-" + content) == SilentLine
  {
    ChompAfter("-", content);
    hide Chomp, Classify;
    ClassifySilent("-" + Chomp(content));
  }

  lemma ReadNoNewline()
    ensures Read("\\ No newline at end of file") == SilentLine
  {
    var line := "\\ No newline at end of file";
    assert Chomp(line) == line;
    hide Chomp, Classify;
    ClassifySilent(line);
  }

  lemma ReadDiff(s: string)
    ensures Read(DIFF_MARKER + s) == DiffLine
  {
    ChompAfter(DIFF_MARKER, s);
    hide Chomp, Classify;
    ClassifyDiff(Chomp(s));
  }

  lemma ReadOldName(name: string)
    ensures Read("--- " + name) == SilentLine
  {
    ReadRemoved("-- " + name);
    hide Read;
    assert "-" + ("-- " + name) == "--- " + name;
  }

  lemma ReadTarget(target: string)
    ensures Read(TARGET_MARKER + target) == TargetLine(TrimSpace(Chomp(target)))
  {
    ChompAfter(TARGET_MARKER, target);
    hide Chomp, Classify, TrimSpace;
    ClassifyTarget(Chomp(target));
  }

  lemma ReadCommit(hash: string)
    ensures Read(COMMIT_MARKER + hash) == CommitLine(TrimSpace(Chomp(hash)))
  {
    ChompAfter(COMMIT_MARKER, hash);
    hide Chomp, Classify, TrimSpace;
    ClassifyCommit(Chomp(hash));
  }

  lemma HeaderShape(oldStart: nat, oldCount: nat, start: nat, count: nat, context: string)
    ensures var line := PrintHeader(oldStart, oldCount, start, count, context);
      |line| >= 3 && line[0] == line[1] == '@' && line[2] == ' '
    ensures Chomp(PrintHeader(oldStart, oldCount, start, count, context))
         == PrintHeader(oldStart, oldCount, start, count, Chomp(context))
  {
    var ranges := "@@ -" + PrintRange(oldStart, oldCount) + " +" + PrintRange(start, count) + " @@";
    hide PrintRange, Chomp;
    ChompAfter(ranges, context);
  }

  lemma ReadHeader(h: LogHunk)
    requires GoodHunk(h)
    ensures Read(PrintHeader(h.oldStart, |h.removed|, h.start, |h.added|, h.context)) == HunkLine(Some(h.start))
  {
    HeaderShape(h.oldStart, |h.removed|, h.start, |h.added|, h.context);
    HeaderShape(h.oldStart, |h.removed|, h.start, |h.added|, Chomp(h.context));
    hide Chomp, Classify, PrintHeader;
    HeaderReads(h.oldStart, |h.removed|, h.start, |h.added|, Chomp(h.context));
    ClassifyHunk(PrintHeader(h.oldStart, |h.removed|, h.start, |h.added|, Chomp(h.context)));
  }

  // ----- an honest log reads back -----

  lemma RunOne(p: Position, line: string, rest: seq<string>)
    ensures Run(p, [line] + rest) == Run(Step(p, Read(line)), rest)
  {
    assert ([line] + rest)[1..] == rest;
  }

  lemma RunNone(p: Position)
    ensures Run(p, []) == p
  {
  }

  lemma {:induction false} RunRemoved(p: Position, removed: seq<string>)
    ensures Run(p, Prefixed("-", removed)) == p
    decreases |removed|
  {
    if removed != [] {
      ReadRemoved(removed[0]);
      hide Read;
      RunOne(p, "-" + removed[0], Prefixed("-", removed[1..]));
      RunRemoved(p, removed[1..]);
    }
  }

  lemma RunNoNewline(p: Position, here: bool)
    ensures Run(p, NoNewline(here)) == p
  {
    ReadNoNewline();
    hide Read;
    if here {
      RunOne(p, "\\ No newline at end of file", []);
    }
  }

  lemma {:induction false} RunNeutral(p: Position, lines: seq<string>)
    requires Neutral(lines)
    ensures Run(p, lines) == p.(newLine := p.newLine + |lines|)
    decreases |lines|
  {
    hide Read;
    if lines != [] {
      RunNeutral(p.(newLine := p.newLine + 1), lines[1..]);
    }
  }

  lemma StepAdded(p: Position, content: string)
    requires !Disguised(content)
    ensures Step(p, Read("+" + content))
         == p.(newLine := p.newLine + 1, events := p.events + EventsAt(p.commit, p.file, p.newLine, Chomp(content)))
  {
    ReadAdded(content);
    hide Read, Disguised, Chomp;
  }

  lemma {:induction false} RunAdded(p: Position, added: seq<string>)
    requires forall content <- added :: !Disguised(content)
    ensures Run(p, Prefixed("+", added))
         == p.(newLine := p.newLine + |added|, events := p.events + HunkEvents(p.commit, p.file, p.newLine, added))
    decreases |added|
  {
    if added != [] {
      StepAdded(p, added[0]);
      hide Read, Step, Disguised, Chomp, EventsAt;
      RunOne(p, "+" + added[0], Prefixed("+", added[1..]));
      var here := EventsAt(p.commit, p.file, p.newLine, Chomp(added[0]));
      RunAdded(p.(newLine := p.newLine + 1, events := p.events + here), added[1..]);
      Regroup(p.events, here, HunkEvents(p.commit, p.file, p.newLine + 1, added[1..]));
    }
  }

  lemma Regroup<T>(a: seq<T>, b: seq<T>, c: seq<T>)
    ensures a + b + c == a + (b + c)
  {
  }

  /** The same place in the log; only the line counter may differ. */
  ghost predicate Reaches(p: Position, q: Position) {
    p.commit == q.commit && p.file == q.file && p.events == q.events && p.commits == q.commits
  }

  lemma RunHunk(p: Position, h: LogHunk)
    requires GoodHunk(h) && HonestHunk(h)
    ensures Reaches(Run(p, PrintHunk(h)), p.(events := p.events + HunkEvents(p.commit, p.file, h.start, h.added)))
  {
    ReadHeader(h);
    hide Read, PrintHeader, Run, Prefixed, NoNewline, Disguised;
    var q := p.(newLine := h.start);
    var r, a := Prefixed("-", h.removed), Prefixed("+", h.added);
    var o, n := NoNewline(h.oldNoNewline), NoNewline(h.newNoNewline);
    RunOne(p, PrintHeader(h.oldStart, |h.removed|, h.start, |h.added|, h.context), r + (o + (a + n)));
    RunConcat(q, r, o + (a + n));
    RunRemoved(q, h.removed);
    RunConcat(q, o, a + n);
    RunNoNewline(q, h.oldNoNewline);
    RunConcat(q, a, n);
    RunAdded(q, h.added);
    RunNoNewline(Run(q, a), h.newNoNewline);
  }

  lemma {:induction false} RunHunks(p: Position, hunks: seq<LogHunk>)
    requires forall h <- hunks :: GoodHunk(h) && HonestHunk(h)
    ensures Reaches(Run(p, PrintHunks(hunks)), p.(events := p.events + FileEvents(p.commit, p.file, hunks)))
    decreases |hunks|
  {
    hide HonestHunk, GoodHunk, PrintHunk, HunkEvents;
    if hunks == [] {
      RunNone(p);
    } else {
      RunHunk(p, hunks[0]);
      RunConcat(p, PrintHunk(hunks[0]), PrintHunks(hunks[1..]));
      var q := Run(p, PrintHunk(hunks[0]));
      hide Run;
      RunHunks(q, hunks[1..]);
      Regroup(p.events, HunkEvents(p.commit, p.file, hunks[0].start, hunks[0].added), FileEvents(p.commit, p.file, hunks[1..]));
    }
  }

  lemma RunFile(p: Position, f: FilePatch)
    requires GoodFile(f) && HonestFile(f)
    ensures var q := Run(p, PrintFile(f));
      && q.commit == p.commit && q.commits == p.commits
      && q.events == p.events + FileEvents(p.commit, NameSeen(f.newName), f.hunks)
  {
    ReadDiff(" " + f.names);
    ReadOldName(f.oldName);
    ReadTarget(Target(f.newName));
    assert Read(OldNameLine(f)) == SilentLine && Read(NewNameLine(f)) == TargetLine(TrimSpace(Chomp(Target(f.newName))));
    hide Read, Run, HonestHunk, GoodHunk, Target, TrimSpace, FileOf, Chomp, OldNameLine, NewNameLine, DIFF_MARKER, TARGET_MARKER;
    var body := if f.hunks == [] then [] else [OldNameLine(f)] + ([NewNameLine(f)] + PrintHunks(f.hunks));
    var q := p.(file := "");
    RunOne(p, DIFF_MARKER + (" " + f.names), f.header + body);
    RunConcat(q, f.header, body);
    RunNeutral(q, f.header);
    var r := Run(q, f.header);
    if f.hunks == [] {
      RunNone(r);
    } else {
      RunOne(r, OldNameLine(f), [NewNameLine(f)] + PrintHunks(f.hunks));
      RunOne(r, NewNameLine(f), PrintHunks(f.hunks));
      RunHunks(r.(file := NameSeen(f.newName)), f.hunks);
    }
  }

  lemma {:induction false} RunFiles(p: Position, files: seq<FilePatch>)
    requires forall f <- files :: GoodFile(f) && HonestFile(f)
    ensures var q := Run(p, PrintFiles(files));
      && q.commit == p.commit && q.commits == p.commits
      && q.events == p.events + CommitEvents(p.commit, files, NameSeen)
    decreases |files|
  {
    hide GoodFile, HonestFile, PrintFile, FileEvents;
    if files == [] {
      RunNone(p);
    } else {
      RunFile(p, files[0]);
      RunConcat(p, PrintFile(files[0]), PrintFiles(files[1..]));
      var q := Run(p, PrintFile(files[0]));
      hide Run;
      RunFiles(q, files[1..]);
      Regroup(p.events, FileEvents(p.commit, NameSeen(files[0].newName), files[0].hunks),
              CommitEvents(p.commit, files[1..], NameSeen));
    }
  }

  lemma RunCommit(p: Position, c: LogCommit)
    requires GoodCommit(c) && HonestCommit(c)
    ensures var q := Run(p, PrintCommit(c));
      q.commits == p.commits + {c.hash} && q.events == p.events + CommitEvents(c.hash, c.files, NameSeen)
  {
    ReadCommit(c.hash);
    hide Read, Run, GoodFile, HonestFile, TrimSpace, Chomp, COMMIT_MARKER;
    var q := p.(commit := c.hash, commits := p.commits + {c.hash});
    RunOne(p, COMMIT_MARKER + c.hash, c.gap + PrintFiles(c.files));
    RunConcat(q, c.gap, PrintFiles(c.files));
    RunNeutral(q, c.gap);
    RunFiles(Run(q, c.gap), c.files);
  }

  /** As long as no added line begins with `++ `, every added line is read back under the name seen. */
  lemma {:induction false} HonestLogReadsBack(p: Position, log: seq<LogCommit>)
    requires GoodLog(log) && HonestLog(log)
    ensures Run(p, PrintLog(log)).events == p.events + LogEvents(log, NameSeen)
    ensures Run(p, PrintLog(log)).commits == p.commits + Hashes(log)
    decreases |log|
  {
    hide GoodCommit, HonestCommit, PrintCommit, CommitEvents;
    if log == [] {
      RunNone(p);
    } else {
      RunCommit(p, log[0]);
      RunConcat(p, PrintCommit(log[0]), PrintLog(log[1..]));
      var q := Run(p, PrintCommit(log[0]));
      hide Run;
      HonestLogReadsBack(q, log[1..]);
      Regroup(p.events, CommitEvents(log[0].hash, log[0].files, NameSeen), LogEvents(log[1..], NameSeen));
    }
  }
}
