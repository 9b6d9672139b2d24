/** `parseNumstatLine` and the commit marker: what the lines of a `git log --numstat` mean. */
module ChangeLog {
  import opened Text
  import opened Wrappers

  const COMMIT_MARKER := "@@CG-CHANGE@@"
  const NUL: char := '\0'
  const RENAME_ARROW := " => "
  const MAX_INT: nat := 0x7FFF_FFFF_FFFF_FFFF

  /** `fileDelta`. */
  datatype Delta = Delta(additions: nat, deletions: nat)

  datatype Line = CommitLine(subject: string) | FileLine(path: string, delta: Delta) | OtherLine

  /** `strings.Split` on one character. */
  function SplitOn(s: string, sep: char): (parts: seq<string>)
    ensures |parts| >= 1
  {
    if s == "" then [""]
    else
      var rest := SplitOn(s[1..], sep);
      if s[0] == sep then [""] + rest else [[s[0]] + rest[0]] + rest[1..]
  }

  /** `strconv.Atoi` on text without a sign. */
  function Unsigned(s: string): Option<nat> {
    if s == "" || !('0' <= s[|s| - 1] <= '9') then None
    else
      var digit := s[|s| - 1] as int - '0' as int;
      if |s| == 1 then Some(digit)
      else
        match Unsigned(s[..|s| - 1])
        case None => None
        case Some(n) => Some(10 * n + digit)
  }

  /** `parseNumstatCount`: anything that is not a natural number of the machine counts as none. */
  function ParseCount(value: string): nat {
    var digits := if value != "" && value[0] == '+' then value[1..] else value;
    match Unsigned(digits)
    case None => 0
    case Some(n) => if n > MAX_INT then 0 else n
  }

  /** What follows the last `sep`, if there is one. */
  function AfterLast(s: string, sep: string): Option<string>
    requires sep != ""
  {
    if |s| < |sep| then None
    else if s[|s| - |sep|..] == sep then Some("")
    else
      match AfterLast(s[..|s| - 1], sep)
      case None => None
      case Some(t) => Some(t + [s[|s| - 1]])
  }

  predicate IsBrace(c: char) {
    c == '{' || c == '}'
  }

  function TrimBracesLeft(s: string): string {
    if s != "" && IsBrace(s[0]) then TrimBracesLeft(s[1..]) else s
  }

  function TrimBracesRight(s: string): string {
    if s != "" && IsBrace(s[|s| - 1]) then TrimBracesRight(s[..|s| - 1]) else s
  }

  /** `strings.Trim` of braces. */
  function TrimBraces(t: string): string {
    TrimBracesRight(TrimBracesLeft(t))
  }

  /** The new name of a rename; any other path as it is. */
  function AfterArrow(path: string): string {
    match AfterLast(path, RENAME_ARROW)
    case None => path
    case Some(target) => TrimBraces(target)
  }

  /** `normalizeNumstatPath`, on a system whose separator is the slash. */
  function NormalizePath(path: string): string {
    var trimmed := TrimSpace(path);
    if trimmed == "" || trimmed == "/dev/null" then ""
    else AfterArrow(trimmed)
  }

  function ParseNumstat(line: string): Line {
    var parts := SplitOn(line, '\t');
    if |parts| < 3 then OtherLine
    else
      var path := NormalizePath(parts[|parts| - 1]);
      if path == "" then OtherLine
      else FileLine(path, Delta(ParseCount(parts[0]), ParseCount(parts[1])))
  }

  function AfterNul(s: string): Option<string> {
    if s == "" then None else if s[0] == NUL then Some(s[1..]) else AfterNul(s[1..])
  }

  /** What `handleLine` reads in a line. */
  function ParseLine(line: string): Line {
    if COMMIT_MARKER <= line then
      match AfterNul(line)
      case Some(subject) => CommitLine(TrimSpace(subject))
      case None => CommitLine(TrimSpace(line[|COMMIT_MARKER|..]))
    else ParseNumstat(line)
  }

  lemma {:induction false} AfterFirstNul(head: string, rest: string)
    requires NUL !in head
    ensures AfterNul(head + [NUL] + rest) == Some(rest) && AfterNul(head) == None
  {
    if head == "" {
      assert head + [NUL] + rest == [NUL] + rest && ([NUL] + rest)[1..] == rest;
    } else {
      assert (head + [NUL] + rest)[1..] == head[1..] + [NUL] + rest;
      AfterFirstNul(head[1..], rest);
    }
  }

  predicate AllDigits(s: string) {
    s != "" && forall k :: 0 <= k < |s| ==> '0' <= s[k] <= '9'
  }

  /** Exactly the strings of digits are numbers. */
  lemma {:induction false} UnsignedIff(s: string)
    ensures Unsigned(s).Some? <==> AllDigits(s)
  {
    if |s| > 1 {
      UnsignedIff(s[..|s| - 1]);
    }
  }

  /** A count with a plus counts the same; one that is not digits, or too large for the machine, counts as none. */
  lemma CountsRead(n: nat, other: string)
    ensures ParseCount("+" + Decimal(n)) == ParseCount(Decimal(n)) == if n <= 9_223_372_036_854_775_807 then n else 0
    ensures !AllDigits(other) && (other == "" || other[0] != '+') ==> ParseCount(other) == 0
    ensures ParseCount("-") == 0
  {
    UnsignedReadsBack(n);
    DecimalLength(n);
    UnsignedIff(other);
    UnsignedIff("-");
    hide Unsigned, Decimal;
    assert Decimal(n)[0] in Decimal(n);
    assert ("+" + Decimal(n))[1..] == Decimal(n);
    assert !AllDigits("-") by {
      assert "-"[0] == '-';
    }
  }

  /** A commit line gives back the subject that was printed after the hash and its NUL, or, without a NUL, all of it. */
  lemma CommitReadsBack(hash: string, subject: string)
    requires '\0' !in hash
    ensures ParseLine("@@CG-CHANGE@@" + hash + "\0" + subject) == CommitLine(TrimSpace(subject))
    ensures ParseLine("@@CG-CHANGE@@" + hash) == CommitLine(TrimSpace(hash))
  {
    hide TrimSpace, AfterNul, ParseNumstat;
    var head := COMMIT_MARKER + hash;
    assert NUL !in COMMIT_MARKER;
    AfterFirstNul(head, subject);
    assert COMMIT_MARKER <= head + [NUL] + subject && head[|COMMIT_MARKER|..] == hash;
  }

  lemma UnsignedSnoc(s: string, c: char, n: nat)
    requires '0' <= c <= '9' && s != "" && Unsigned(s) == Some(n)
    ensures Unsigned(s + [c]) == Some(10 * n + (c as int - '0' as int))
  {
    assert (s + [c])[..|s|] == s;
  }

  lemma {:induction false} UnsignedReadsBack(n: nat)
    ensures Unsigned(Decimal(n)) == Some(n)
    ensures forall c <- Decimal(n) :: '0' <= c <= '9'
  {
    DigitIs(n % 10);
    hide Digit;
    if n >= 10 {
      UnsignedReadsBack(n / 10);
      DecimalLength(n / 10);
      assert Decimal(n) == Decimal(n / 10) + [Digit(n % 10)];
      hide Decimal, Unsigned;
      UnsignedSnoc(Decimal(n / 10), Digit(n % 10), n / 10);
    }
  }

  lemma {:induction false} SplitFirst(head: string, rest: string, sep: char)
    requires sep !in head
    ensures SplitOn(head + [sep] + rest, sep) == [head] + SplitOn(rest, sep)
  {
    if head == "" {
      assert head + [sep] + rest == [sep] + rest;
      assert ([sep] + rest)[1..] == rest;
    } else {
      SplitFirst(head[1..], rest, sep);
      assert (head + [sep] + rest)[1..] == head[1..] + [sep] + rest;
      assert [head[0]] + head[1..] == head;
    }
  }

  lemma {:induction false} SplitNone(s: string, sep: char)
    requires sep !in s
    ensures SplitOn(s, sep) == [s]
  {
    if s != "" {
      SplitNone(s[1..], sep);
      assert [s[0]] + s[1..] == s;
    }
  }

  lemma {:induction false} SplitPartsFree(s: string, sep: char)
    ensures forall part <- SplitOn(s, sep) :: sep !in part
  {
    if s != "" {
      SplitPartsFree(s[1..], sep);
    }
  }

  // ----- what becomes of a path -----

  ghost predicate OccursAt(s: string, sep: string, k: nat) {
    k + |sep| <= |s| && s[k..k + |sep|] == sep
  }

  ghost predicate Contains(s: string, sep: string) {
    exists k :: OccursAt(s, sep, k)
  }

  lemma EndsSnoc(init: string, last: char, sep: string, t: string)
    requires |t| + |sep| <= |init| && init[|init| - |t|..] == t && OccursAt(init, sep, |init| - |t| - |sep|)
    ensures var s := init + [last];
      s[|s| - |t| - 1..] == t + [last] && OccursAt(s, sep, |s| - |t| - 1 - |sep|)
  {
    var s, k := init + [last], |init| - |t| - |sep|;
    assert s[|init| - |t|..] == init[|init| - |t|..] + [last];
    assert s[k..k + |sep|] == init[k..k + |sep|];
  }

  lemma EndsAt(s: string, sep: string)
    requires |sep| <= |s| && s[|s| - |sep|..] == sep
    ensures s[|s|..] == "" && OccursAt(s, sep, |s| - |sep|)
  {
  }

  /** Some `sep` ends where the result begins. */
  lemma {:induction false} AfterSome(s: string, sep: string)
    requires sep != "" && AfterLast(s, sep).Some?
    ensures var t := AfterLast(s, sep).value;
      |t| + |sep| <= |s| && s[|s| - |t|..] == t && OccursAt(s, sep, |s| - |t| - |sep|)
  {
    hide OccursAt;
    if s[|s| - |sep|..] == sep {
      EndsAt(s, sep);
    } else {
      var init, last := s[..|s| - 1], s[|s| - 1];
      AfterSome(init, sep);
      EndsSnoc(init, last, sep, AfterLast(init, sep).value);
      assert s == init + [last];
    }
  }

  /** No `sep` begins after the one that the result follows. */
  lemma {:induction false} AfterAll(s: string, sep: string, k: nat)
    requires sep != "" && OccursAt(s, sep, k)
    ensures AfterLast(s, sep).Some? && |AfterLast(s, sep).value| <= |s| - k - |sep|
  {
    if s[|s| - |sep|..] != sep {
      assert k + |sep| < |s| && s[..|s| - 1][k..k + |sep|] == s[k..k + |sep|];
      AfterAll(s[..|s| - 1], sep, k);
    }
  }

  lemma AfterNone(s: string, sep: string)
    requires sep != ""
    ensures AfterLast(s, sep) == None <==> !Contains(s, sep)
  {
    if AfterLast(s, sep).Some? {
      AfterSome(s, sep);
    } else if k :| OccursAt(s, sep, k) {
      AfterAll(s, sep, k);
    }
  }

  lemma {:induction false} BracesLeft(t: string)
    ensures var l := TrimBracesLeft(t);
      && |l| <= |t| && l == t[|t| - |l|..] && (l == "" || !IsBrace(l[0]))
      && (t != "" ==> (l == t <==> !IsBrace(t[0])))
  {
    if t != "" && IsBrace(t[0]) {
      BracesLeft(t[1..]);
    }
  }

  lemma {:induction false} BracesRight(t: string)
    ensures var r := TrimBracesRight(t);
      && r <= t && (r == "" || !IsBrace(r[|r| - 1]))
      && (t != "" ==> (r == t <==> !IsBrace(t[|t| - 1])))
  {
    if t != "" && IsBrace(t[|t| - 1]) {
      BracesRight(t[..|t| - 1]);
    }
  }

  predicate NoBraceAtEnds(t: string) {
    t != "" && !IsBrace(t[0]) && !IsBrace(t[|t| - 1])
  }

  lemma BracesTrimmed(t: string)
    ensures var r := TrimBraces(t);
      && |r| <= |t| && (r == "" || NoBraceAtEnds(r)) && (t != "" ==> (r == t <==> NoBraceAtEnds(t)))
      && (|r| == |t| ==> r == t) && (forall c <- r :: c in t)
      && (t != "" && !IsBrace(t[0]) ==> r <= t) && (t != "" && !IsBrace(t[|t| - 1]) ==> r == t[|t| - |r|..])
  {
    var l := TrimBracesLeft(t);
    BracesLeft(t);
    BracesRight(l);
    hide TrimBracesLeft, TrimBracesRight;
    var r := TrimBraces(t);
    assert r <= l && l == t[|t| - |l|..];
    if r != "" {
      assert r[0] == l[0];
    }
  }

  lemma SpaceTrimmed(s: string)
    ensures var r := TrimSpace(s);
      |r| <= |s| && (|r| == |s| ==> r == s) && (forall c <- r :: c in s) && (r == "" || !IsSpace(r[|r| - 1]))
  {
    TrimLeftExact(s);
    TrimRightExact(TrimLeft(s));
    hide TrimLeft, TrimRight, IsSpace;
    var l, r := TrimLeft(s), TrimSpace(s);
    assert r <= l && l == s[|s| - |l|..];
  }

  /** Printed alone, such a path comes through as it is. */
  ghost predicate PlainPath(path: string) {
    TrimSpace(path) == path && path != "" && path != "/dev/null" && !Contains(path, RENAME_ARROW)
  }

  lemma PathKeptIff(path: string)
    ensures NormalizePath(path) == path != "" <==> PlainPath(path)
    ensures forall c <- NormalizePath(path) :: c in path
  {
    var trimmed := TrimSpace(path);
    SpaceTrimmed(path);
    AfterNone(trimmed, RENAME_ARROW);
    if AfterLast(trimmed, RENAME_ARROW).Some? {
      AfterSome(trimmed, RENAME_ARROW);
      BracesTrimmed(AfterLast(trimmed, RENAME_ARROW).value);
    }
    hide TrimSpace, AfterLast, Contains, TrimBracesLeft, TrimBracesRight;
  }

  /** What `git log --numstat` prints for a file that is not renamed. */
  function PrintNumstat(delta: Delta, path: string): string {
    Decimal(delta.additions) + ['\t'] + (Decimal(delta.deletions) + ['\t'] + path)
  }

  /** Exactly when a `--numstat` line reads back as the counts and the path it was printed from. */
  lemma NumstatReadsBackIff(delta: Delta, path: string)
    requires delta.additions <= MAX_INT && delta.deletions <= MAX_INT
    ensures ParseLine(PrintNumstat(delta, path)) == FileLine(path, delta) <==> PlainPath(path) && '\t' !in path
  {
    hide NormalizePath, PlainPath;
    var parts := NumstatParts(delta, path);
    PathKeptIff(parts[|parts| - 1]);
    if '\t' in path {
      assert '\t' !in NormalizePath(parts[|parts| - 1]);
    } else {
      assert parts[|parts| - 1] == path;
    }
  }

  lemma NumstatParts(delta: Delta, path: string) returns (parts: seq<string>)
    requires delta.additions <= MAX_INT && delta.deletions <= MAX_INT
    ensures |parts| >= 3 && '\t' !in parts[|parts| - 1] && ('\t' !in path ==> parts[|parts| - 1] == path)
    ensures var kept := NormalizePath(parts[|parts| - 1]);
      ParseLine(PrintNumstat(delta, path)) == if kept == "" then OtherLine else FileLine(kept, delta)
  {
    var a, d := Decimal(delta.additions), Decimal(delta.deletions);
    UnsignedReadsBack(delta.additions);
    UnsignedReadsBack(delta.deletions);
    DecimalLength(delta.additions);
    DecimalLength(delta.deletions);
    hide Decimal, NormalizePath, Unsigned;
    SplitFirst(a, d + ['\t'] + path, '\t');
    SplitFirst(d, path, '\t');
    SplitPartsFree(path, '\t');
    if '\t' !in path {
      SplitNone(path, '\t');
    }
    parts := [a] + ([d] + SplitOn(path, '\t'));
    hide SplitOn;
    var line := PrintNumstat(delta, path);
    assert a[0] in a && d[0] in d;
    assert line[0] == a[0] && '0' <= a[0] <= '9' && '0' <= d[0] <= '9';
    assert COMMIT_MARKER[0] == '@';
  }
}
