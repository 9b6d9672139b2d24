/** The text of a unified diff: splitting files into lines, printing hunks, and reading them back. */
module PatchText {
  import opened UnifiedDiff
  import opened DiffHunks
  import opened Text
  import opened Scanning
  import opened Wrappers

  /** `strings.Split(s, "\n")`. */
  function Split(s: string): (lines: seq<string>)
    ensures |lines| >= 1
    ensures forall k :: 0 <= k < |lines| ==> '\n' !in lines[k]
  {
    if s == "" then [""]
    else
      var rest := Split(s[1..]);
      if s[0] == '\n' then [""] + rest else [[s[0]] + rest[0]] + rest[1..]
  }

  function JoinLines(lines: seq<string>): string
    requires |lines| >= 1
  {
    if |lines| == 1 then lines[0] else lines[0] + "\n" + JoinLines(lines[1..])
  }

  lemma {:induction false} JoinOfSplit(s: string)
    ensures JoinLines(Split(s)) == s
  {
    if s != "" {
      JoinOfSplit(s[1..]);
      var rest, lines := Split(s[1..]), Split(s);
      if s[0] == '\n' {
        assert lines[1..] == rest;
      } else {
        assert lines[1..] == rest[1..];
      }
    }
  }

  predicate EndsWithNewline(s: string) {
    s != "" && s[|s| - 1] == '\n'
  }

  /** `strings.TrimSuffix(s, "\n")`. */
  function TrimNewline(s: string): string {
    if EndsWithNewline(s) then s[..|s| - 1] else s
  }

  /** `splitLines`. */
  function SplitLines(text: string): seq<string> {
    if text == "" then [] else Split(TrimNewline(text))
  }

  /** Nonempty texts that differ by one final newline and nothing else. */
  predicate SameButFinalNewline(s: string, t: string) {
    && s != "" && t != ""
    && ((!EndsWithNewline(s) && t == s + "\n") || (!EndsWithNewline(t) && s == t + "\n"))
  }

  /** The lines of a text do not record whether its last line is terminated. */
  lemma SameLinesIff(s: string, t: string)
    ensures SplitLines(s) == SplitLines(t) <==> s == t || SameButFinalNewline(s, t)
  {
    JoinOfSplit(TrimNewline(s));
    JoinOfSplit(TrimNewline(t));
    TrimmedNewline(s);
    TrimmedNewline(t);
    if s != "" && t != "" {
      SameTrimmed(s, t);
      hide TrimNewline, EndsWithNewline, SameButFinalNewline, Split;
    }
  }

  lemma TrimmedNewline(s: string)
    ensures s == TrimNewline(s) + (if EndsWithNewline(s) then "\n" else "")
  {
  }

  lemma SameTrimmed(s: string, t: string)
    requires s != "" && t != ""
    ensures TrimNewline(s) == TrimNewline(t) <==> s == t || SameButFinalNewline(s, t)
  {
    TrimmedNewline(s);
    TrimmedNewline(t);
    if SameButFinalNewline(s, t) {
      assert (s + "\n")[..|s|] == s && (t + "\n")[..|t|] == t;
    }
  }

  // ----- printing -----

  function KindByte(k: Kind): char {
    match k
    case Keep => ' '
    case Delete => '-'
    case Insert => '+'
  }

  function PrintBody(body: seq<Op>): string {
    if body == [] then ""
    else [KindByte(body[0].kind)] + body[0].text + "\n" + PrintBody(body[1..])
  }

  function PrintSpan(s: Span): string
    requires s.start >= 0
  {
    Decimal(s.start) + "," + Decimal(s.count)
  }

  function PrintHunk(h: Hunk): string
    requires h.minus.start >= 0 && h.plus.start >= 0
  {
    "@@ -" + PrintSpan(h.minus) + " +" + PrintSpan(h.plus) + " @@\n" + PrintBody(h.body)
  }

  predicate StartsNonnegative(hunks: seq<Hunk>) {
    forall k :: 0 <= k < |hunks| ==> hunks[k].minus.start >= 0 && hunks[k].plus.start >= 0
  }

  function PrintHunks(hunks: seq<Hunk>): string
    requires StartsNonnegative(hunks)
  {
    if hunks == [] then "" else PrintHunk(hunks[0]) + PrintHunks(hunks[1..])
  }

  // ----- reading -----

  function ReadSpan(s: string): Parsed<Span> {
    match ReadNumber(s)
    case Fail => Fail
    case Parsed(start, rest) =>
      if !("," <= rest) then Fail
      else match ReadNumber(rest[1..])
        case Fail => Fail
        case Parsed(count, rest') => Parsed(Span(start, count), rest')
  }

  function LineLength(s: string): (length: nat)
    ensures length <= |s| && '\n' !in s[..length] && (length < |s| ==> s[length] == '\n')
  {
    if s == "" || s[0] == '\n' then 0 else LineLength(s[1..]) + 1
  }

  /** Read body lines until both counts are used up. */
  function ReadBody(s: string, minus: nat, plus: nat): (r: Parsed<seq<Op>>)
    ensures r.Parsed? ==> |r.rest| <= |s|
    decreases |s|
  {
    if minus == 0 && plus == 0 then Parsed([], s)
    else if s == "" then Fail
    else
      var n := LineLength(s[1..]) + 1;
      if n == |s| then Fail
      else
        var text, rest := s[1..n], s[n + 1..];
        match s[0]
        case ' ' => if minus == 0 || plus == 0 then Fail else Prepend(Op(Keep, text), ReadBody(rest, minus - 1, plus - 1))
        case '-' => if minus == 0 then Fail else Prepend(Op(Delete, text), ReadBody(rest, minus - 1, plus))
        case '+' => if plus == 0 then Fail else Prepend(Op(Insert, text), ReadBody(rest, minus, plus - 1))
        case _ => Fail
  }

  function Prepend(op: Op, p: Parsed<seq<Op>>): Parsed<seq<Op>> {
    match p
    case Fail => Fail
    case Parsed(ops, rest) => Parsed([op] + ops, rest)
  }

  function ReadHunk(s: string): Parsed<Hunk> {
    match Skip(s, "@@ -")
    case Fail => Fail
    case Parsed(_, s1) =>
      match ReadSpan(s1)
      case Fail => Fail
      case Parsed(minus, s2) =>
        match Skip(s2, " +")
        case Fail => Fail
        case Parsed(_, s3) =>
          match ReadSpan(s3)
          case Fail => Fail
          case Parsed(plus, s4) =>
            match Skip(s4, " @@\n")
            case Fail => Fail
            case Parsed(_, s5) =>
              match ReadBody(s5, minus.count, plus.count)
              case Fail => Fail
              case Parsed(body, rest) => Parsed(Hunk(minus, plus, body), rest)
  }

  /** Read a whole patch, hunk after hunk. */
  function ReadHunks(s: string): Option<seq<Hunk>>
    decreases |s|
  {
    if s == "" then Some([])
    else
      match ReadHunk(s)
      case Fail => None
      case Parsed(h, rest) =>
        if |rest| >= |s| then None
        else match ReadHunks(rest)
          case None => None
          case Some(hunks) => Some([h] + hunks)
  }

  lemma SpanReadsBack(s: Span, rest: string)
    requires s.start >= 0 && (rest == "" || !IsDigit(rest[0]))
    ensures ReadSpan(PrintSpan(s) + rest) == Parsed(s, rest)
  {
    var tail := Decimal(s.count) + rest;
    assert PrintSpan(s) + rest == Decimal(s.start) + ("," + tail);
    NumberReadsBack(s.start, "," + tail);
    assert ("," + tail)[1..] == tail;
    NumberReadsBack(s.count, rest);
  }

  lemma {:induction false} LineLengthOf(line: string, rest: string)
    requires '\n' !in line
    ensures LineLength(line + "\n" + rest) == |line|
  {
    if line != "" {
      assert (line + "\n" + rest)[1..] == line[1..] + "\n" + rest;
      LineLengthOf(line[1..], rest);
    }
  }

  ghost predicate TextOfLines(body: seq<Op>) {
    forall k :: 0 <= k < |body| ==> '\n' !in body[k].text
  }

  /** Reading the line of `op` leaves the rest of the body to be read. */
  lemma OpReadsBack(op: Op, tail: string, minus: nat, plus: nat)
    requires '\n' !in op.text
    requires op.kind != Insert ==> minus > 0
    requires op.kind != Delete ==> plus > 0
    ensures var minus' := if op.kind != Insert then minus - 1 else minus;
      var plus' := if op.kind != Delete then plus - 1 else plus;
      ReadBody([KindByte(op.kind)] + op.text + "\n" + tail, minus, plus) == Prepend(op, ReadBody(tail, minus', plus'))
  {
    var s := [KindByte(op.kind)] + op.text + "\n" + tail;
    assert s[1..] == op.text + "\n" + tail;
    LineLengthOf(op.text, tail);
    assert s[1..|op.text| + 1] == op.text && s[|op.text| + 2..] == tail && s[0] == KindByte(op.kind);
    hide LineLength;
    match op.kind
    case Keep =>
    case Delete =>
    case Insert =>
  }

  lemma SidesOfFirst(body: seq<Op>)
    requires body != []
    ensures |OldSide(body)| == |OldSide(body[1..])| + (if body[0].kind != Insert then 1 else 0)
    ensures |NewSide(body)| == |NewSide(body[1..])| + (if body[0].kind != Delete then 1 else 0)
  {
  }

  lemma PrintBodyUnfolds(body: seq<Op>, rest: string)
    requires body != []
    ensures PrintBody(body) + rest == [KindByte(body[0].kind)] + body[0].text + "\n" + (PrintBody(body[1..]) + rest)
  {
  }

  lemma EmptyBodyReads(rest: string)
    ensures ReadBody(rest, 0, 0) == Parsed([], rest)
  {
  }

  lemma {:induction false} BodyReadsBack(body: seq<Op>, rest: string)
    requires TextOfLines(body)
    ensures ReadBody(PrintBody(body) + rest, |OldSide(body)|, |NewSide(body)|) == Parsed(body, rest)
  {
    hide LineLength, ReadBody;
    if body == [] {
      EmptyBodyReads(rest);
      assert PrintBody(body) + rest == rest;
    } else {
      var op, tail, minus, plus := body[0], PrintBody(body[1..]) + rest, |OldSide(body)|, |NewSide(body)|;
      SidesOfFirst(body);
      PrintBodyUnfolds(body, rest);
      OpReadsBack(op, tail, minus, plus);
      BodyReadsBack(body[1..], rest);
      assert body == [op] + body[1..];
    }
  }

  /** What a printed hunk must satisfy to be read back: nonnegative starts, counts that agree
      with the body, and one line of text per op. */
  ghost predicate Printable(h: Hunk) {
    && h.minus.start >= 0 && h.plus.start >= 0
    && h.minus.count == |OldSide(h.body)| && h.plus.count == |NewSide(h.body)|
    && TextOfLines(h.body)
  }

  lemma SkipsLiteral(lit: string, rest: string)
    ensures Skip(lit + rest, lit) == Parsed((), rest)
  {
    assert (lit + rest)[|lit|..] == rest;
  }

  lemma HunkReadsBack(h: Hunk, rest: string)
    requires Printable(h)
    ensures ReadHunk(PrintHunk(h) + rest) == Parsed(h, rest)
  {
    var s5 := PrintBody(h.body) + rest;
    var s4 := " @@\n" + s5;
    var s3 := PrintSpan(h.plus) + s4;
    var s2 := " +" + s3;
    var s1 := PrintSpan(h.minus) + s2;
    HunkPieces(h, rest);
    SkipsLiteral("@@ -", s1);
    SpanReadsBack(h.minus, s2);
    SkipsLiteral(" +", s3);
    SpanReadsBack(h.plus, s4);
    SkipsLiteral(" @@\n", s5);
    BodyReadsBack(h.body, rest);
  }

  lemma HunkPieces(h: Hunk, rest: string)
    requires h.minus.start >= 0 && h.plus.start >= 0
    ensures PrintHunk(h) + rest
         == "@@ -" + (PrintSpan(h.minus) + (" +" + (PrintSpan(h.plus) + (" @@\n" + (PrintBody(h.body) + rest)))))
  {
  }

  lemma PrintHunkNonempty(h: Hunk)
    requires h.minus.start >= 0 && h.plus.start >= 0
    ensures |PrintHunk(h)| > 0
  {
  }

  /** The printed hunks are read back exactly. */
  lemma {:induction false} HunksReadBack(hunks: seq<Hunk>)
    requires forall k :: 0 <= k < |hunks| ==> Printable(hunks[k])
    ensures StartsNonnegative(hunks)
    ensures ReadHunks(PrintHunks(hunks)) == Some(hunks)
  {
    hide PrintHunk, ReadHunk, OldSide, NewSide, TextOfLines;
    if hunks != [] {
      var h, rest := hunks[0], PrintHunks(hunks[1..]);
      HunkReadsBack(h, rest);
      HunksReadBack(hunks[1..]);
      assert hunks == [h] + hunks[1..];
      assert PrintHunks(hunks) == PrintHunk(h) + rest;
      PrintHunkNonempty(h);
    }
  }

  // ----- UnifiedDiff -----

  function FileHeader(path: string): string {
    "--- a/" + path + "\n+++ b/" + path + "\n"
  }

  /** The loop of `writeHunk` over body ops. */
  method WriteBody(body: seq<Op>) returns (text: string)
    ensures text == PrintBody(body)
  {
    text := "";
    for n := 0 to |body|
      invariant text + PrintBody(body[n..]) == PrintBody(body)
    {
      PrintBodyNext(body, n);
      hide PrintBody, KindByte;
      text := text + [KindByte(body[n].kind)] + body[n].text + "\n";
    }
    assert body[|body|..] == [];
  }

  lemma PrintBodyNext(body: seq<Op>, n: nat)
    requires n < |body|
    ensures PrintBody(body[n..]) == [KindByte(body[n].kind)] + body[n].text + "\n" + PrintBody(body[n + 1..])
  {
    assert body[n..][1..] == body[n + 1..];
  }

  lemma HunksPrintable(a: seq<string>, b: seq<string>, ranges: seq<Range>)
    requires Separated(ranges, |Script(a, b, 0, 0)|)
    requires forall l :: l in a + b ==> '\n' !in l
    ensures forall k :: 0 <= k < |ranges| ==> Printable(HunksOf(Script(a, b, 0, 0), ranges)[k])
  {
    hide Script, OldSide, NewSide;
    var ops := Script(a, b, 0, 0);
    ScriptTexts(a, b, 0, 0);
    forall k | 0 <= k < |ranges| ensures Printable(HunkOf(ops, ranges[k])) {
      var body := ops[ranges[k].start..ranges[k].end];
      forall p | 0 <= p < |body| ensures '\n' !in body[p].text {
        assert body[p] == ops[ranges[k].start + p];
      }
    }
  }

  lemma {:induction false} ScriptTexts(a: seq<string>, b: seq<string>, i: nat, j: nat)
    requires i <= |a| && j <= |b|
    ensures forall op :: op in Script(a, b, i, j) ==> op.text in a + b
    decreases |a| - i + |b| - j
  {
    if i < |a| && j < |b| && a[i] == b[j] {
      ScriptTexts(a, b, i + 1, j + 1);
    } else if i < |a| && (j == |b| || Lcs(a, b, i + 1, j) >= Lcs(a, b, i, j + 1)) {
      ScriptTexts(a, b, i + 1, j);
    } else if j < |b| {
      ScriptTexts(a, b, i, j + 1);
    }
  }

  /** The loop of `UnifiedDiff` over hunks, with `writeHunk` inlined. */
  method WriteHunks(hunks: seq<Hunk>) returns (text: string)
    requires StartsNonnegative(hunks)
    ensures text == PrintHunks(hunks)
  {
    text := "";
    for n := 0 to |hunks|
      invariant text + PrintHunks(hunks[n..]) == PrintHunks(hunks)
    {
      assert hunks[n..][1..] == hunks[n + 1..];
      var lines := WriteBody(hunks[n].body);
      text := text + ("@@ -" + PrintSpan(hunks[n].minus) + " +" + PrintSpan(hunks[n].plus) + " @@\n" + lines);
    }
  }

  /** Read back, the text of a patch turns the old lines into the new ones and, reversed, the new
      into the old; it shows no hunk exactly when only a final newline differs. */
  ghost predicate DescribesChange(patch: Option<seq<Hunk>>, before: string, after: string) {
    && patch.Some?
    && Apply(SplitLines(before), patch.value) == Some(SplitLines(after))
    && Apply(SplitLines(after), ReversePatch(patch.value)) == Some(SplitLines(before))
    && (patch.value == [] <==> SameButFinalNewline(before, after))
  }

  lemma HunksDescribeChange(before: string, after: string, hunks: seq<Hunk>, ranges: seq<Range>)
    requires before != after
    requires var ops := Script(SplitLines(before), SplitLines(after), 0, 0);
      HunksExact(ops, ranges) && hunks == HunksOf(ops, ranges)
    ensures StartsNonnegative(hunks) && DescribesChange(ReadHunks(PrintHunks(hunks)), before, after)
  {
    var a, b := SplitLines(before), SplitLines(after);
    HunksPrintable(a, b, ranges);
    HunksReadBack(hunks);
    PatchRoundTrip(a, b, ranges);
    ReverseRoundTrip(a, b, ranges);
    NoHunksIff(a, b, ranges);
    SameLinesIff(before, after);
  }

  /** `UnifiedDiff`. */
  method UnifiedDiffText(path: string, before: string, after: string) returns (text: string)
    ensures before == after ==> text == ""
    ensures before != after ==>
      FileHeader(path) <= text && DescribesChange(ReadHunks(text[|FileHeader(path)|..]), before, after)
  {
    if before == after {
      return "";
    }
    var hunks, ranges := Diff(SplitLines(before), SplitLines(after));
    HunksDescribeChange(before, after, hunks, ranges);
    var body := WriteHunks(hunks);
    text := FileHeader(path) + body;
    assert text[|FileHeader(path)|..] == body;
  }
}
