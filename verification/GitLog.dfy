/** The lines of `git log -p -U0` as `history.go` classifies them, and how git prints them. */
module GitLog {
  import opened Text
  import opened Wrappers
  import opened Scanning

  const COMMIT_MARKER := "@@CG-COMMIT@@ "
  const DIFF_MARKER := "diff --git"
  const TARGET_MARKER := "+++ "
  const HUNK_MARKER := "@@"
  const MAX_INT: nat := 0x7FFF_FFFF_FFFF_FFFF

  datatype LogLine =
    | CommitLine(hash: string)
    | DiffLine
    | TargetLine(target: string)
    | HunkLine(start: Option<nat>)
    | SilentLine                    // no content, and no line of the new file
    | AddedLine(content: string)
    | OtherLine                     // counts as a line of the new file

  /** `hunkHeader`, whose group is the start of the new side; `strconv.Atoi` stops at the largest integer. */
  function HunkStart(line: string): Option<nat> {
    match Skip(line, "@@ -")
    case Fail => None
    case Parsed(_, s1) =>
      match ReadNumber(s1)
      case Fail => None
      case Parsed(_, s2) =>
        match Skip(AfterCount(s2), " +")
        case Fail => None
        case Parsed(_, s3) =>
          match ReadNumber(s3)
          case Fail => None
          case Parsed(n, _) => Some(if n > MAX_INT then MAX_INT else n)
  }

  /** The optional `,count` of a header side. */
  function AfterCount(s: string): string {
    if s != "" && s[0] == ',' then
      match ReadNumber(s[1..])
      case Fail => s
      case Parsed(_, rest) => rest
    else s
  }

  /** The cases of `handleLine`, in their order. */
  function Classify(line: string): LogLine {
    if COMMIT_MARKER <= line then CommitLine(TrimSpace(line[|COMMIT_MARKER|..]))
    else if DIFF_MARKER <= line then DiffLine
    else if TARGET_MARKER <= line then TargetLine(TrimSpace(line[|TARGET_MARKER|..]))
    else if HUNK_MARKER <= line then HunkLine(HunkStart(line))
    else if line != "" && (line[0] == '-' || line[0] == '\\') then SilentLine
    else if line != "" && line[0] == '+' then AddedLine(line[1..])
    else OtherLine
  }

  lemma PrefixFails(prefix: string, line: string, k: nat)
    requires k < |prefix| && k < |line| && prefix[k] != line[k]
    ensures !(prefix <= line)
  {
  }

  lemma PrefixHolds(prefix: string, s: string)
    ensures prefix <= prefix + s && (prefix + s)[|prefix|..] == s
  {
  }

  lemma Markers()
    ensures |COMMIT_MARKER| == 14 && COMMIT_MARKER[0] == '@' && COMMIT_MARKER[2] == 'C'
    ensures |DIFF_MARKER| == 10 && DIFF_MARKER[0] == 'd'
    ensures |TARGET_MARKER| == 4 && TARGET_MARKER[0] == '+' && TARGET_MARKER[1] == '+' && TARGET_MARKER[2] == '+'
         && TARGET_MARKER[3] == ' '
    ensures |HUNK_MARKER| == 2 && HUNK_MARKER[0] == '@'
  {
  }

  /** The first character decides most cases. */
  lemma ByFirst(line: string)
    requires line != ""
    ensures line[0] != '@' ==> !(COMMIT_MARKER <= line) && !(HUNK_MARKER <= line)
    ensures line[0] != 'd' ==> !(DIFF_MARKER <= line)
    ensures line[0] != '+' ==> !(TARGET_MARKER <= line)
  {
    Markers();
    var commit, diff, target, hunk := COMMIT_MARKER, DIFF_MARKER, TARGET_MARKER, HUNK_MARKER;
    if line[0] != '@' {
      PrefixFails(commit, line, 0);
      PrefixFails(hunk, line, 0);
    }
    if line[0] != 'd' {
      PrefixFails(diff, line, 0);
    }
    if line[0] != '+' {
      PrefixFails(target, line, 0);
    }
  }

  lemma ClassifySilent(line: string)
    requires line != "" && (line[0] == '-' || line[0] == '\\')
    ensures Classify(line) == SilentLine
  {
    ByFirst(line);
    hide TrimSpace, HunkStart;
  }

  lemma ClassifyDiff(s: string)
    ensures Classify(DIFF_MARKER + s) == DiffLine
  {
    Markers();
    PrefixHolds(DIFF_MARKER, s);
    ByFirst(DIFF_MARKER + s);
    hide TrimSpace, HunkStart;
  }

  lemma ClassifyTarget(s: string)
    ensures Classify(TARGET_MARKER + s) == TargetLine(TrimSpace(s))
  {
    Markers();
    PrefixHolds(TARGET_MARKER, s);
    ByFirst(TARGET_MARKER + s);
    hide TrimSpace, HunkStart;
  }

  lemma ClassifyCommit(s: string)
    ensures Classify(COMMIT_MARKER + s) == CommitLine(TrimSpace(s))
  {
    PrefixHolds(COMMIT_MARKER, s);
    hide TrimSpace, HunkStart;
  }

  lemma ClassifyAdded(content: string)
    ensures Classify(['+'] + content)
         == if TARGET_MARKER[1..] <= content then TargetLine(TrimSpace(content[3..])) else AddedLine(content)
  {
    Markers();
    var line := ['+'] + content;
    ByFirst(line);
    PlusPrefix(TARGET_MARKER, content);
    assert line[1..] == content;
    assert |content| >= 3 ==> line[4..] == content[3..];
    hide TrimSpace, HunkStart;
  }

  lemma PlusPrefix(marker: string, content: string)
    requires marker != "" && marker[0] == '+'
    ensures marker <= ['+'] + content <==> marker[1..] <= content
  {
    var line := ['+'] + content;
    assert line[1..] == content;
    if marker <= line {
      assert marker[1..] == line[1..][..|marker| - 1];
    }
    if marker[1..] <= content {
      assert marker == ['+'] + marker[1..];
      assert marker == line[..|marker|];
    }
  }

  lemma ClassifyHunk(line: string)
    requires |line| >= 3 && line[0] == line[1] == '@' && line[2] != 'C'
    ensures Classify(line) == HunkLine(HunkStart(line))
  {
    Markers();
    PrefixFails(COMMIT_MARKER, line, 2);
    ByFirst(line);
    assert HUNK_MARKER == line[..2];
    hide TrimSpace, HunkStart;
  }

  // ----- what git prints -----

  /** `start,count`, the count left out when it is one. */
  function PrintRange(start: nat, count: nat): string {
    if count == 1 then Decimal(start) else Decimal(start) + "," + Decimal(count)
  }

  function PrintHeader(oldStart: nat, oldCount: nat, start: nat, count: nat, context: string): string {
    "@@ -" + PrintRange(oldStart, oldCount) + " +" + PrintRange(start, count) + " @@" + context
  }

  lemma RangeReads(start: nat, count: nat, rest: string)
    requires rest != "" && !IsDigit(rest[0]) && rest[0] != ','
    ensures ReadNumber(PrintRange(start, count) + rest).Parsed? && ReadNumber(PrintRange(start, count) + rest).value == start
    ensures AfterCount(ReadNumber(PrintRange(start, count) + rest).rest) == rest
  {
    if count == 1 {
      NumberReadsBack(start, rest);
    } else {
      var tail := "," + (Decimal(count) + rest);
      assert PrintRange(start, count) + rest == Decimal(start) + tail;
      NumberReadsBack(start, tail);
      assert tail[1..] == Decimal(count) + rest;
      NumberReadsBack(count, rest);
    }
  }

  lemma SkipLiteral(lit: string, rest: string)
    ensures Skip(lit + rest, lit) == Parsed((), rest)
  {
  }

  lemma HeaderReads(oldStart: nat, oldCount: nat, start: nat, count: nat, context: string)
    requires start <= MAX_INT
    ensures HunkStart(PrintHeader(oldStart, oldCount, start, count, context)) == Some(start)
  {
    var c := " @@" + context;
    var b := " +" + (PrintRange(start, count) + c);
    var a := PrintRange(oldStart, oldCount) + b;
    assert PrintHeader(oldStart, oldCount, start, count, context) == "@@ -" + a by {
      hide PrintRange;
    }
    hide PrintHeader, HunkStart, ReadNumber, AfterCount, Skip, PrintRange;
    SkipLiteral("@@ -", a);
    RangeReads(oldStart, oldCount, b);
    SkipLiteral(" +", PrintRange(start, count) + c);
    RangeReads(start, count, c);
    StartOf("@@ -" + a, a, b, PrintRange(start, count) + c);
  }

  lemma StartOf(line: string, a: string, b: string, c: string)
    requires Skip(line, "@@ -") == Parsed((), a) && ReadNumber(a).Parsed? && AfterCount(ReadNumber(a).rest) == b
    requires Skip(b, " +") == Parsed((), c) && ReadNumber(c).Parsed?
    ensures HunkStart(line) == Some(if ReadNumber(c).value > MAX_INT then MAX_INT else ReadNumber(c).value)
  {
  }
}
