/** Exactly which logs are read back, and what becomes of the others. */
module HistoryExact {
  import opened Text
  import opened GitLog
  import opened HistoryTrace

  /** How many lines the reader takes for added ones. */
  function Plusses(lines: seq<string>): nat {
    if lines == [] then 0 else (if Read(lines[0]).AddedLine? then 1 else 0) + Plusses(lines[1..])
  }

  lemma {:induction false} PlussesConcat(a: seq<string>, b: seq<string>)
    ensures Plusses(a + b) == Plusses(a) + Plusses(b)
    decreases |a|
  {
    hide Read;
    if a == [] {
      assert a + b == b;
    } else {
      assert (a + b)[1..] == a[1..] + b;
      PlussesConcat(a[1..], b);
    }
  }

  lemma {:induction false} RunSees(p: Position, lines: seq<string>)
    ensures |Run(p, lines).events| <= |p.events| + Plusses(lines)
    decreases |lines|
  {
    hide Read;
    if lines != [] {
      RunSees(Step(p, Read(lines[0])), lines[1..]);
    }
  }

  lemma {:induction false} PlussesRemoved(removed: seq<string>)
    ensures Plusses(Prefixed("-", removed)) == 0
    decreases |removed|
  {
    if removed != [] {
      ReadRemoved(removed[0]);
      hide Read;
      PlussesRemoved(removed[1..]);
      assert Prefixed("-", removed)[1..] == Prefixed("-", removed[1..]);
    }
  }

  lemma {:induction false} PlussesNeutral(lines: seq<string>)
    requires Neutral(lines)
    ensures Plusses(lines) == 0
    decreases |lines|
  {
    hide Read;
    if lines != [] {
      PlussesNeutral(lines[1..]);
    }
  }

  lemma {:induction false} PlussesAdded(added: seq<string>)
    ensures Plusses(Prefixed("+", added)) <= |added|
    ensures Plusses(Prefixed("+", added)) == |added| ==> forall content <- added :: !Disguised(content)
    decreases |added|
  {
    if added != [] {
      ReadAdded(added[0]);
      hide Read, Disguised;
      PlussesAdded(added[1..]);
      assert Prefixed("+", added)[1..] == Prefixed("+", added[1..]);
      assert added == [added[0]] + added[1..];
    }
  }

  lemma PlussesOne(line: string, rest: seq<string>)
    ensures Plusses([line] + rest) == (if Read(line).AddedLine? then 1 else 0) + Plusses(rest)
  {
    assert ([line] + rest)[1..] == rest;
  }

  lemma PlussesHunk(h: LogHunk)
    requires GoodHunk(h)
    ensures Plusses(PrintHunk(h)) <= |h.added|
    ensures Plusses(PrintHunk(h)) == |h.added| ==> HonestHunk(h)
  {
    ReadHeader(h);
    PlussesRemoved(h.removed);
    PlussesAdded(h.added);
    ReadNoNewline();
    hide Read, PrintHeader, Prefixed, Disguised;
    var r, a := Prefixed("-", h.removed), Prefixed("+", h.added);
    var o, n := NoNewline(h.oldNoNewline), NoNewline(h.newNoNewline);
    PlussesOne(PrintHeader(h.oldStart, |h.removed|, h.start, |h.added|, h.context), r + (o + (a + n)));
    assert Plusses(o) == 0 && Plusses(n) == 0;
    hide Plusses, NoNewline;
    PlussesConcat(r, o + (a + n));
    PlussesConcat(o, a + n);
    PlussesConcat(a, n);
  }

  lemma {:induction false} HunkEventsSize(commit: string, file: string, start: nat, added: seq<string>)
    ensures |HunkEvents(commit, file, start, added)| == if file == "" then 0 else |added|
    decreases |added|
  {
    if added != [] {
      HunkEventsSize(commit, file, start + 1, added[1..]);
    }
  }

  lemma {:induction false} PlussesHunks(commit: string, file: string, hunks: seq<LogHunk>)
    requires file != ""
    requires forall h <- hunks :: GoodHunk(h)
    ensures Plusses(PrintHunks(hunks)) <= |FileEvents(commit, file, hunks)|
    ensures Plusses(PrintHunks(hunks)) == |FileEvents(commit, file, hunks)| ==> forall h <- hunks :: HonestHunk(h)
    decreases |hunks|
  {
    hide GoodHunk, HonestHunk, PrintHunk, HunkEvents;
    if hunks != [] {
      PlussesHunk(hunks[0]);
      HunkEventsSize(commit, file, hunks[0].start, hunks[0].added);
      PlussesHunks(commit, file, hunks[1..]);
      PlussesConcat(PrintHunk(hunks[0]), PrintHunks(hunks[1..]));
      assert hunks == [hunks[0]] + hunks[1..];
    }
  }

  lemma {:induction false} PlussesNoneAdded(hunks: seq<LogHunk>)
    requires forall h <- hunks :: GoodHunk(h) && h.added == []
    ensures Plusses(PrintHunks(hunks)) == 0
    decreases |hunks|
  {
    hide GoodHunk, HonestHunk, PrintHunk;
    if hunks != [] {
      PlussesHunk(hunks[0]);
      PlussesNoneAdded(hunks[1..]);
      PlussesConcat(PrintHunk(hunks[0]), PrintHunks(hunks[1..]));
    }
  }

  lemma PlussesFile(commit: string, f: FilePatch)
    requires GoodFile(f)
    ensures Plusses(PrintFile(f)) <= |FileEvents(commit, NameOf(f.newName), f.hunks)|
    ensures Plusses(PrintFile(f)) == |FileEvents(commit, NameOf(f.newName), f.hunks)| ==> HonestFile(f)
  {
    ReadDiff(" " + f.names);
    ReadOldName(f.oldName);
    ReadTarget(Target(f.newName));
    assert Read(OldNameLine(f)) == SilentLine && Read(NewNameLine(f)).TargetLine?;
    PlussesBody(commit, f);
    hide Read, GoodHunk, Target, FileEvents, OldNameLine, NewNameLine, Plusses, DIFF_MARKER, TARGET_MARKER;
    var body := if f.hunks == [] then [] else [OldNameLine(f)] + ([NewNameLine(f)] + PrintHunks(f.hunks));
    PlussesOne(DIFF_MARKER + (" " + f.names), f.header + body);
    PlussesConcat(f.header, body);
    PlussesNeutral(f.header);
    if f.hunks != [] {
      PlussesOne(OldNameLine(f), [NewNameLine(f)] + PrintHunks(f.hunks));
      PlussesOne(NewNameLine(f), PrintHunks(f.hunks));
    }
  }

  lemma PlussesBody(commit: string, f: FilePatch)
    requires GoodFile(f)
    ensures Plusses([]) == 0
    ensures Plusses(PrintHunks(f.hunks)) <= |FileEvents(commit, NameOf(f.newName), f.hunks)|
    ensures Plusses(PrintHunks(f.hunks)) == |FileEvents(commit, NameOf(f.newName), f.hunks)| ==> HonestFile(f)
  {
    if f.newName.Deleted? {
      PlussesNoneAdded(f.hunks);
    } else {
      PlussesHunks(commit, f.newName.path, f.hunks);
    }
  }

  lemma {:induction false} PlussesFiles(commit: string, files: seq<FilePatch>)
    requires forall f <- files :: GoodFile(f)
    ensures Plusses(PrintFiles(files)) <= |CommitEvents(commit, files, NameOf)|
    ensures Plusses(PrintFiles(files)) == |CommitEvents(commit, files, NameOf)| ==> forall f <- files :: HonestFile(f)
    decreases |files|
  {
    hide GoodFile, HonestFile, PrintFile, FileEvents;
    if files != [] {
      PlussesFile(commit, files[0]);
      PlussesFiles(commit, files[1..]);
      PlussesConcat(PrintFile(files[0]), PrintFiles(files[1..]));
      assert files == [files[0]] + files[1..];
    }
  }

  lemma PlussesCommit(c: LogCommit)
    requires GoodCommit(c)
    ensures Plusses(PrintCommit(c)) <= |CommitEvents(c.hash, c.files, NameOf)|
    ensures Plusses(PrintCommit(c)) == |CommitEvents(c.hash, c.files, NameOf)| ==> HonestCommit(c)
  {
    ReadCommit(c.hash);
    hide Read, GoodFile, HonestFile, TrimSpace, Chomp, COMMIT_MARKER;
    PlussesOne(COMMIT_MARKER + c.hash, c.gap + PrintFiles(c.files));
    PlussesConcat(c.gap, PrintFiles(c.files));
    PlussesNeutral(c.gap);
    PlussesFiles(c.hash, c.files);
  }

  lemma {:induction false} PlussesLog(log: seq<LogCommit>)
    requires GoodLog(log)
    ensures Plusses(PrintLog(log)) <= |LogEvents(log, NameOf)|
    ensures Plusses(PrintLog(log)) == |LogEvents(log, NameOf)| ==> HonestLog(log)
    decreases |log|
  {
    hide GoodCommit, HonestCommit, PrintCommit, CommitEvents;
    if log != [] {
      PlussesCommit(log[0]);
      PlussesLog(log[1..]);
      PlussesConcat(PrintCommit(log[0]), PrintLog(log[1..]));
      assert log == [log[0]] + log[1..];
    }
  }

  // ----- the names -----

  lemma {:induction false} TrimRightChomped(s: string)
    ensures TrimRight(Chomp(s)) == TrimRight(s)
  {
    if s != "" && (s[|s| - 1] == '\n' || s[|s| - 1] == '\r') {
      TrimRightChomped(s[..|s| - 1]);
    }
  }

  lemma TabTrimmed(path: string)
    ensures TrimRight(path + "\t") == TrimRight(path)
  {
    assert (path + "\t")[..|path|] == path;
  }

  lemma FileAfter(path: string)
    ensures FileOf("b/" + path) == path
  {
    assert ("b/" + path)[2..] == path && ("b/" + path)[0] == 'b' && "/dev/null"[0] == '/';
  }

  lemma NoBlankBefore(s: string)
    requires s != "" && !IsSpace(s[0])
    ensures TrimLeft(s) == s
  {
  }

  /** A plain name loses the blanks at its end. */
  lemma PlainSeen(path: string)
    ensures NameSeen(Plain(path)) == TrimRight(path)
  {
    var name := path + (if ' ' in path then "\t" else "");
    ChompAfter("b/", name);
    NoBlankBefore("b/" + Chomp(name));
    TrimRightAfter("b/", Chomp(name));
    TrimRightChomped(name);
    TabTrimmed(path);
    assert path + "" == path;
    FileAfter(TrimRight(path));
    hide TrimLeft, TrimRight, Chomp, FileOf;
  }

  /** A quoted name is taken with its quotes and spelling. */
  lemma QuotedSeen(path: string, spelling: string)
    ensures NameSeen(Quoted(path, spelling)) == "\"" + spelling + "\""
  {
    var s := "\"" + spelling + "\"";
    assert s[0] == '"' && s[|s| - 1] == '"';
    assert Chomp(s) == s && TrimSpace(s) == s;
    hide Chomp, TrimSpace;
    assert "/dev/null"[0] == '/' && "b/"[0] == 'b';
  }

  /** Exactly the readable names come through. */
  lemma NameSeenIff(name: NewName)
    requires GoodName(name) && !name.Deleted?
    ensures NameSeen(name) == NameOf(name) <==> Readable(name)
  {
    hide NameSeen, TrimRight;
    match name {
      case Plain(path) =>
        PlainSeen(path);
        TrimRightExact(path);
      case Quoted(path, spelling) =>
        QuotedSeen(path, spelling);
    }
  }

  lemma {:induction false} HunkNamed(commit: string, file: string, name: string, start: nat, added: seq<string>)
    requires name != "" || added == []
    ensures |HunkEvents(commit, file, start, added)| <= |HunkEvents(commit, name, start, added)|
    ensures HunkEvents(commit, file, start, added) == HunkEvents(commit, name, start, added) ==> added == [] || file == name
  {
    if added != [] {
      HunkEventsSize(commit, name, start, added);
      HunkEventsSize(commit, file, start, added);
      if file != "" {
        assert HunkEvents(commit, file, start, added)[0].file == file;
        assert HunkEvents(commit, name, start, added)[0].file == name;
      }
    }
  }

  lemma SplitEqual<T>(a: seq<T>, b: seq<T>, c: seq<T>, d: seq<T>)
    requires |a| <= |c| && |b| <= |d| && a + b == c + d
    ensures a == c && b == d
  {
    assert a == (a + b)[..|a|] && c == (c + d)[..|c|];
    assert b == (a + b)[|a|..] && d == (c + d)[|c|..];
  }

  lemma {:induction false} FileNamed(commit: string, file: string, name: string, hunks: seq<LogHunk>)
    requires forall h <- hunks :: name != "" || h.added == []
    ensures |FileEvents(commit, file, hunks)| <= |FileEvents(commit, name, hunks)|
    ensures FileEvents(commit, file, hunks) == FileEvents(commit, name, hunks) ==>
      file == name || forall h <- hunks :: h.added == []
  {
    hide HunkEvents;
    if hunks != [] {
      var h, rest := hunks[0], hunks[1..];
      HunkNamed(commit, file, name, h.start, h.added);
      FileNamed(commit, file, name, rest);
      assert hunks == [h] + rest;
      if FileEvents(commit, file, hunks) == FileEvents(commit, name, hunks) {
        SplitEqual(HunkEvents(commit, file, h.start, h.added), FileEvents(commit, file, rest),
                   HunkEvents(commit, name, h.start, h.added), FileEvents(commit, name, rest));
      }
    }
  }

  lemma {:induction false} FilesNamed(commit: string, files: seq<FilePatch>)
    requires forall f <- files :: GoodFile(f)
    ensures |CommitEvents(commit, files, NameSeen)| <= |CommitEvents(commit, files, NameOf)|
    ensures CommitEvents(commit, files, NameSeen) == CommitEvents(commit, files, NameOf) ==> forall f <- files :: ReadableFile(f)
  {
    hide NameSeen, Readable, FileEvents, GoodHunk, Neutral;
    if files != [] {
      var f, rest := files[0], files[1..];
      var seen, name := NameSeen(f.newName), NameOf(f.newName);
      assert GoodFile(f);
      FileNamed(commit, seen, name, f.hunks);
      if !f.newName.Deleted? {
        NameSeenIff(f.newName);
      }
      FilesNamed(commit, rest);
      assert files == [f] + rest;
      if CommitEvents(commit, files, NameSeen) == CommitEvents(commit, files, NameOf) {
        SplitEqual(FileEvents(commit, seen, f.hunks), CommitEvents(commit, rest, NameSeen),
                   FileEvents(commit, name, f.hunks), CommitEvents(commit, rest, NameOf));
      }
    }
  }

  lemma {:induction false} LogNamed(log: seq<LogCommit>)
    requires GoodLog(log)
    ensures |LogEvents(log, NameSeen)| <= |LogEvents(log, NameOf)|
    ensures LogEvents(log, NameSeen) == LogEvents(log, NameOf) ==> ReadableLog(log)
  {
    hide ReadableFile, GoodFile, CommitEvents, Neutral;
    if log != [] {
      var c, rest := log[0], log[1..];
      assert GoodCommit(c);
      FilesNamed(c.hash, c.files);
      LogNamed(rest);
      assert log == [c] + rest;
      if LogEvents(log, NameSeen) == LogEvents(log, NameOf) {
        SplitEqual(CommitEvents(c.hash, c.files, NameSeen), LogEvents(rest, NameSeen),
                   CommitEvents(c.hash, c.files, NameOf), LogEvents(rest, NameOf));
      }
    }
  }

  lemma {:induction false} NothingAdded(commit: string, file: string, hunks: seq<LogHunk>)
    requires forall h <- hunks :: h.added == []
    ensures FileEvents(commit, file, hunks) == []
  {
    if hunks != [] {
      NothingAdded(commit, file, hunks[1..]);
    }
  }

  lemma {:induction false} ReadableFiles(commit: string, files: seq<FilePatch>)
    requires forall f <- files :: GoodFile(f) && ReadableFile(f)
    ensures CommitEvents(commit, files, NameSeen) == CommitEvents(commit, files, NameOf)
  {
    hide NameSeen, FileEvents, GoodHunk, Neutral;
    if files != [] {
      var f := files[0];
      assert GoodFile(f) && ReadableFile(f);
      if Adds(f) {
        NameSeenIff(f.newName);
      } else {
        NothingAdded(commit, NameSeen(f.newName), f.hunks);
        NothingAdded(commit, NameOf(f.newName), f.hunks);
      }
      ReadableFiles(commit, files[1..]);
    }
  }

  lemma {:induction false} ReadableNames(log: seq<LogCommit>)
    requires GoodLog(log) && ReadableLog(log)
    ensures LogEvents(log, NameSeen) == LogEvents(log, NameOf)
  {
    hide ReadableFile, GoodFile, CommitEvents, Neutral;
    if log != [] {
      assert GoodCommit(log[0]) && ReadableCommit(log[0]);
      ReadableFiles(log[0].hash, log[0].files);
      ReadableNames(log[1..]);
    }
  }

  /** Exactly when the reader sees every added line with its true commit, file and number: when none begins with `++ `,
      and every file that gets lines has a name that git prints plainly and that does not end in a blank. */
  lemma LogReadsBackIff(log: seq<LogCommit>)
    requires GoodLog(log)
    ensures Run(START, PrintLog(log)).events == LogEvents(log, NameOf) <==> HonestLog(log) && ReadableLog(log)
  {
    RunSees(START, PrintLog(log));
    PlussesLog(log);
    if HonestLog(log) {
      HonestLogReadsBack(START, log);
      LogNamed(log);
      if ReadableLog(log) {
        ReadableNames(log);
      }
    }
    hide *;
    assert START.events + LogEvents(log, NameSeen) == LogEvents(log, NameSeen);
  }

  // ----- the inputs that are misread -----

  function OneFile(name: NewName, content: string): FilePatch {
    FilePatch("", [], "/dev/null", name, [LogHunk(0, 1, "", [], [content], false, false)])
  }

  /** A log that adds one line to one file. */
  function OneLine(name: NewName, content: string): seq<LogCommit> {
    [LogCommit("c0ffee", [], [OneFile(name, content)])]
  }

  lemma OneLineEvents(name: NewName, content: string, naming: NewName -> string)
    ensures LogEvents(OneLine(name, content), naming) == EventsAt("c0ffee", naming(name), 1, Chomp(content))
  {
    var file := naming(name);
    var f := OneFile(name, content);
    hide EventsAt, Chomp;
    assert HunkEvents("c0ffee", file, 1, [content]) == EventsAt("c0ffee", file, 1, Chomp(content)) by {
      assert HunkEvents("c0ffee", file, 2, []) == [];
    }
    assert FileEvents("c0ffee", file, f.hunks) == HunkEvents("c0ffee", file, 1, [content]) by {
      assert FileEvents("c0ffee", file, []) == [];
    }
    assert CommitEvents("c0ffee", [f], naming) == FileEvents("c0ffee", file, f.hunks) by {
      assert CommitEvents("c0ffee", [], naming) == [];
    }
    assert LogEvents([], naming) == [];
  }

  lemma OneLineGood(name: NewName, content: string)
    requires GoodName(name) && !name.Deleted?
    ensures GoodLog(OneLine(name, content)) && (HonestLog(OneLine(name, content)) <==> !Disguised(content))
  {
    var log, f := OneLine(name, content), OneFile(name, content);
    assert TrimSpace(Chomp("c0ffee")) == "c0ffee";
    hide TrimSpace, Chomp, Disguised, GoodName;
    assert log[0].files == [f] && f.hunks[0].added == [content];
    assert GoodHunk(f.hunks[0]) && GoodFile(f) && GoodCommit(log[0]);
    assert HonestHunk(f.hunks[0]) <==> !Disguised(content);
    assert HonestFile(f) <==> HonestHunk(f.hunks[0]);
    assert HonestCommit(log[0]) <==> HonestFile(f);
  }

  /** What the reader makes of it: nothing of a line that begins with `++ `, and else the line under the name seen. */
  lemma OneLineSeen(name: NewName, content: string)
    requires GoodName(name) && !name.Deleted?
    ensures Run(START, PrintLog(OneLine(name, content))).events
         == if Disguised(content) then [] else EventsAt("c0ffee", NameSeen(name), 1, Chomp(content))
  {
    var log := OneLine(name, content);
    OneLineGood(name, content);
    OneLineEvents(name, content, NameOf);
    OneLineEvents(name, content, NameSeen);
    hide OneLine, GoodLog, HonestLog, LogEvents, PrintLog, Run, NameSeen, Chomp, Disguised;
    RunSees(START, PrintLog(log));
    PlussesLog(log);
    if HonestLog(log) {
      HonestLogReadsBack(START, log);
      assert START.events + LogEvents(log, NameSeen) == LogEvents(log, NameSeen);
    }
  }

  const ACCENTED := Quoted("caf\U{00E9}.txt", "b/caf\\303\\251.txt")

  /** A line of a file whose name has an accent is reported under the spelling that git prints, quotes and all. */
  lemma QuotedNameMisread(content: string)
    requires !Disguised(content)
    ensures Run(START, PrintLog(OneLine(ACCENTED, content))).events
         == [Event("c0ffee", "\"" + ACCENTED.spelling + "\"", 1, Chomp(content))]
  {
    assert GoodName(ACCENTED);
    QuotedSeen(ACCENTED.path, ACCENTED.spelling);
    hide Run, PrintLog, OneLine, NameSeen, Chomp, Disguised;
    OneLineSeen(ACCENTED, content);
  }

  /** A line of a file whose name ends in a space is reported under another file's name. */
  lemma BlankNameMisread(content: string)
    requires !Disguised(content)
    ensures Run(START, PrintLog(OneLine(Plain("a "), content))).events == [Event("c0ffee", "a", 1, Chomp(content))]
  {
    PlainSeen("a ");
    assert TrimRight("a ") == "a";
    hide Run, PrintLog, OneLine, NameSeen, TrimRight, Chomp, Disguised;
    OneLineSeen(Plain("a "), content);
  }
}
