/** `parseBlocks` in `update.go`: splitting a document into marked blocks and the text around them. */
module ManagedDocument {
  import opened Markers
  import opened Wrappers

  /** A character in front of a text that splits into `rest`. */
  function Extend(c: char, rest: seq<string>): (pieces: seq<string>)
    requires |rest| >= 1
    ensures |pieces| >= 1
  {
    if c == '\n' then ["\n"] + rest else [[c] + rest[0]] + rest[1..]
  }

  /** `strings.SplitAfter(s, "\n")`: every piece but the last ends with a newline. */
  function SplitAfter(s: string): (pieces: seq<string>)
    ensures |pieces| >= 1
  {
    if s == "" then [""] else Extend(s[0], SplitAfter(s[1..]))
  }

  function Concat(pieces: seq<string>): string {
    if pieces == [] then "" else pieces[0] + Concat(pieces[1..])
  }

  /** Empty or ending with a newline. */
  predicate Complete(s: string) {
    s == "" || s[|s| - 1] == '\n'
  }

  /** The lines of a complete text. */
  function CompleteLines(s: string): seq<string>
  {
    var pieces := SplitAfter(s);
    pieces[..|pieces| - 1]
  }

  lemma {:induction false} ConcatOfSplit(s: string)
    ensures Concat(SplitAfter(s)) == s
  {
    if s != "" {
      var rest, pieces := SplitAfter(s[1..]), SplitAfter(s);
      ConcatOfSplit(s[1..]);
      if s[0] == '\n' {
        assert pieces[1..] == rest;
      } else {
        assert pieces[1..] == rest[1..];
      }
    }
  }

  lemma ExtendConcat(c: char, px: seq<string>, py: seq<string>)
    requires |px| >= 1 && px[|px| - 1] == "" && |py| >= 1
    requires |px| == 1 ==> c == '\n'
    ensures var p := Extend(c, px);
      p[|p| - 1] == "" && Extend(c, px[..|px| - 1] + py) == p[..|p| - 1] + py
  {
    var init := px[..|px| - 1];
    if c == '\n' {
      assert ["\n"] + (init + py) == ["\n"] + init + py;
    } else {
      assert (init + py)[1..] == init[1..] + py;
    }
  }

  lemma SplitUnfolds(s: string, y: string)
    requires s != ""
    ensures SplitAfter(s + y) == Extend(s[0], SplitAfter(s[1..] + y)) && SplitAfter(s) == Extend(s[0], SplitAfter(s[1..]))
  {
    assert (s + y)[1..] == s[1..] + y;
  }

  lemma {:induction false} SplitAfterConcat(x: string, y: string)
    requires Complete(x)
    ensures SplitAfter(x)[|SplitAfter(x)| - 1] == ""
    ensures SplitAfter(x + y) == CompleteLines(x) + SplitAfter(y)
  {
    if x == "" {
      assert x + y == y;
    } else {
      hide SplitAfter, Extend;
      SplitAfterConcat(x[1..], y);
      SplitUnfolds(x, y);
      if x[1..] != "" {
        SplitNonempty(x[1..]);
      }
      ExtendConcat(x[0], SplitAfter(x[1..]), SplitAfter(y));
    }
  }

  lemma SplitNonempty(x: string)
    requires x != "" && Complete(x)
    ensures |SplitAfter(x)| >= 2
  {
    if x[0] != '\n' {
      SplitNonempty(x[1..]);
    }
  }

  /** The line without its newline. */
  function Chomp(line: string): string {
    if line != "" && line[|line| - 1] == '\n' then line[..|line| - 1] else line
  }

  function MarkerOn(line: string): Option<Marker> {
    MatchMarker(Chomp(line))
  }

  ghost predicate MarkerFree(text: string) {
    forall line <- SplitAfter(text) :: MarkerOn(line) == None
  }

  /** One block and the text since the previous one. */
  datatype Piece = Piece(name: string, before: string, begin: string, body: string, end: string)

  datatype Doc = Doc(pieces: seq<Piece>, tail: string)

  function FlattenPiece(p: Piece): string {
    p.before + p.begin + p.body + p.end
  }

  function FlattenPieces(pieces: seq<Piece>): string {
    if pieces == [] then "" else FlattenPiece(pieces[0]) + FlattenPieces(pieces[1..])
  }

  function Flatten(d: Doc): string {
    FlattenPieces(d.pieces) + d.tail
  }

  lemma {:induction false} FlattenAppend(a: seq<Piece>, p: Piece)
    ensures FlattenPieces(a + [p]) == FlattenPieces(a) + FlattenPiece(p)
  {
    if a == [] {
      assert FlattenPieces([p]) == FlattenPiece(p);
    } else {
      assert (a + [p])[1..] == a[1..] + [p];
      FlattenAppend(a[1..], p);
    }
  }

  datatype Open = Open(name: string, before: string, begin: string)

  /** What has been read: closed blocks, perhaps an open one, and the text since the last marker. */
  datatype Scan = Scan(pieces: seq<Piece>, open: Option<Open>, text: string)

  datatype ParseError =
    | NestedBegin(line: nat, name: string, inside: string)
    | DuplicateBlock(line: nat, name: string)
    | UnmatchedEnd(line: nat, name: string)
    | NeverClosed(name: string)

  type Parsed<T> = Result<T, ParseError>

  const EMPTY := Scan([], None, "")

  function Names(pieces: seq<Piece>): seq<string> {
    seq(|pieces|, k requires 0 <= k < |pieces| => pieces[k].name)
  }

  function Absorb(s: Scan, text: string): Scan {
    s.(text := s.text + text)
  }

  function Closed(o: Open, body: string, end: string): Piece {
    Piece(o.name, o.before, o.begin, body, end)
  }

  /** One line, the `n`th. */
  function Step(s: Scan, line: string, n: nat): Parsed<Scan> {
    match MarkerOn(line)
    case None => Ok(Absorb(s, line))
    case Some(Marker(Begin, name)) =>
      if s.open.Some? then Err(NestedBegin(n, name, s.open.value.name))
      else if name in Names(s.pieces) then Err(DuplicateBlock(n, name))
      else Ok(Scan(s.pieces, Some(Open(name, s.text, line)), ""))
    case Some(Marker(End, name)) =>
      if s.open.None? || s.open.value.name != name then Err(UnmatchedEnd(n, name))
      else Ok(Scan(s.pieces + [Closed(s.open.value, s.text, line)], None, ""))
  }

  function Run(s: Scan, lines: seq<string>, n: nat): Parsed<Scan>
    decreases |lines|
  {
    if lines == [] then Ok(s)
    else match Step(s, lines[0], n)
      case Err(e) => Err(e)
      case Ok(s') => Run(s', lines[1..], n + 1)
  }

  function Finish(s: Scan): Parsed<Doc> {
    match s.open
    case Some(o) => Err(NeverClosed(o.name))
    case None => Ok(Doc(s.pieces, s.text))
  }

  function Then<T, U>(r: Parsed<T>, f: T -> Parsed<U>): Parsed<U> {
    match r
    case Err(e) => Err(e)
    case Ok(v) => f(v)
  }

  /** The document as blocks and surrounding text, or why it is rejected. */
  function ParseDoc(text: string): Parsed<Doc> {
    Then(Run(EMPTY, SplitAfter(text), 1), Finish)
  }

  function OpenText(s: Scan): string {
    match s.open
    case None => ""
    case Some(o) => o.before + o.begin
  }

  function ScanText(s: Scan): string {
    FlattenPieces(s.pieces) + OpenText(s) + s.text
  }

  lemma ClosingKeepsText(pieces: seq<Piece>, o: Open, body: string, line: string)
    ensures FlattenPieces(pieces + [Closed(o, body, line)]) == FlattenPieces(pieces) + (o.before + o.begin) + body + line
  {
    FlattenAppend(pieces, Closed(o, body, line));
    assert FlattenPieces(pieces) + (o.before + o.begin + body + line)
        == FlattenPieces(pieces) + (o.before + o.begin) + body + line;
  }

  lemma StepKeepsText(s: Scan, line: string, n: nat)
    requires Step(s, line, n).Ok?
    ensures ScanText(Step(s, line, n).value) == ScanText(s) + line
  {
    hide MarkerOn, FlattenPieces;
    match MarkerOn(line)
    case None =>
    case Some(Marker(Begin, name)) =>
    case Some(Marker(End, name)) =>
      ClosingKeepsText(s.pieces, s.open.value, s.text, line);
  }

  lemma {:induction false} RunKeepsText(s: Scan, lines: seq<string>, n: nat)
    requires Run(s, lines, n).Ok?
    ensures ScanText(Run(s, lines, n).value) == ScanText(s) + Concat(lines)
    decreases |lines|
  {
    hide Step, ScanText;
    if lines != [] {
      StepKeepsText(s, lines[0], n);
      RunKeepsText(Step(s, lines[0], n).value, lines[1..], n + 1);
      assert ScanText(s) + lines[0] + Concat(lines[1..]) == ScanText(s) + (lines[0] + Concat(lines[1..]));
    }
  }

  lemma ClosedScanText(s: Scan)
    requires s.open.None?
    ensures ScanText(s) == Flatten(Doc(s.pieces, s.text))
  {
  }

  /** Parsing loses nothing. */
  lemma ParseKeepsText(text: string)
    requires ParseDoc(text).Ok?
    ensures Flatten(ParseDoc(text).value) == text
  {
    assert ScanText(EMPTY) == "";
    RunKeepsText(EMPTY, SplitAfter(text), 1);
    ConcatOfSplit(text);
    hide SplitAfter, Run, ScanText, Flatten, Concat;
    ClosedScanText(Run(EMPTY, SplitAfter(text), 1).value);
  }

  /** Reading on from an earlier result. */
  function RunOn(r: Parsed<Scan>, lines: seq<string>, n: nat): Parsed<Scan> {
    match r
    case Err(_) => r
    case Ok(s) => Run(s, lines, n)
  }

  lemma {:induction false} RunAppend(s: Scan, a: seq<string>, b: seq<string>, n: nat)
    ensures Run(s, a + b, n) == RunOn(Run(s, a, n), b, n + |a|)
    decreases |a|
  {
    hide Step;
    if a == [] {
      assert a + b == b;
    } else {
      assert (a + b)[1..] == a[1..] + b;
      if Step(s, a[0], n).Ok? {
        RunAppend(Step(s, a[0], n).value, a[1..], b, n + 1);
      }
    }
  }

  // ----- well-formed documents -----

  ghost predicate Distinct(names: seq<string>) {
    forall i, j :: 0 <= i < j < |names| ==> names[i] != names[j]
  }

  /** A single line, newline included. */
  ghost predicate IsLine(line: string) {
    SplitAfter(line) == [line, ""]
  }

  ghost predicate BlockOk(p: Piece) {
    && Complete(p.before) && MarkerFree(p.before)
    && IsLine(p.begin) && MarkerOn(p.begin) == Some(Marker(Begin, p.name))
    && Complete(p.body) && MarkerFree(p.body)
    && MarkerOn(p.end) == Some(Marker(End, p.name))
  }

  /** Distinctly named blocks; only the very last end line may lack its newline. */
  ghost predicate WellFormed(d: Doc) {
    && Distinct(Names(d.pieces)) && MarkerFree(d.tail)
    && (forall k :: 0 <= k < |d.pieces| ==> BlockOk(d.pieces[k]))
    && (forall k :: 0 <= k < |d.pieces| ==>
         IsLine(d.pieces[k].end)
         || (k == |d.pieces| - 1 && SplitAfter(d.pieces[k].end) == [d.pieces[k].end] && d.tail == ""))
  }

  lemma {:induction false} RunOrdinary(s: Scan, lines: seq<string>, n: nat)
    requires forall line <- lines :: MarkerOn(line) == None
    ensures Run(s, lines, n) == Ok(Absorb(s, Concat(lines)))
    decreases |lines|
  {
    if lines == [] {
      assert Absorb(s, "") == s;
    } else {
      RunOrdinary(Absorb(s, lines[0]), lines[1..], n + 1);
      assert Absorb(Absorb(s, lines[0]), Concat(lines[1..])) == Absorb(s, Concat(lines));
    }
  }

  lemma CompleteLinesConcat(text: string)
    requires Complete(text)
    ensures SplitAfter(text) == CompleteLines(text) + [""]
    ensures Concat(CompleteLines(text)) == text
  {
    hide SplitAfter, Concat;
    TailOfSplit(text);
    var lines := CompleteLines(text);
    assert SplitAfter(text) == lines + [""];
    ConcatOfSplit(text);
    ConcatAppend(lines, [""]);
    ConcatOne("");
  }

  lemma ConcatOne(piece: string)
    ensures Concat([piece]) == piece
  {
  }

  lemma RunMarkerFree(s: Scan, text: string, n: nat)
    requires MarkerFree(text)
    ensures Run(s, SplitAfter(text), n) == Ok(Absorb(s, text))
    ensures Complete(text) ==> Run(s, CompleteLines(text), n) == Ok(Absorb(s, text))
  {
    ConcatOfSplit(text);
    RunOrdinary(s, SplitAfter(text), n);
    if Complete(text) {
      CompleteLinesConcat(text);
      assert forall line <- CompleteLines(text) :: line in SplitAfter(text);
      RunOrdinary(s, CompleteLines(text), n);
    }
  }

  lemma {:induction false} ConcatAppend(a: seq<string>, b: seq<string>)
    ensures Concat(a + b) == Concat(a) + Concat(b)
  {
    if a == [] {
      assert a + b == b;
    } else {
      assert (a + b)[1..] == a[1..] + b;
      ConcatAppend(a[1..], b);
    }
  }

  /** Reading marker-free text `x` and then the rest. */
  lemma RunText(s: Scan, x: string, y: string, n: nat)
    requires Complete(x) && MarkerFree(x)
    ensures Run(s, SplitAfter(x + y), n) == Run(Absorb(s, x), SplitAfter(y), n + |CompleteLines(x)|)
  {
    hide MarkerOn;
    SplitAfterConcat(x, y);
    RunAppend(s, CompleteLines(x), SplitAfter(y), n);
    RunMarkerFree(s, x, n);
  }

  /** Reading one line and then the rest. */
  lemma RunLine(s: Scan, line: string, rest: string, n: nat)
    requires IsLine(line)
    ensures Run(s, SplitAfter(line + rest), n) == RunOn(Step(s, line, n), SplitAfter(rest), n + 1)
  {
    TailOfSplit(line);
    SplitAfterConcat(line, rest);
    assert CompleteLines(line) == [line];
    var lines := [line] + SplitAfter(rest);
    assert lines[1..] == SplitAfter(rest);
  }

  lemma {:induction false} TailOfSplit(s: string)
    ensures SplitAfter(s)[|SplitAfter(s)| - 1] == "" <==> Complete(s)
  {
    if s != "" {
      TailOfSplit(s[1..]);
      if s[0] != '\n' && Complete(s) {
        if s[1..] != "" {
          SplitNonempty(s[1..]);
        }
      }
    }
  }

  /** Reading the text before a block, its begin line and its body. */
  lemma RunToEnd(s: Scan, p: Piece, rest: string, n: nat) returns (n': nat)
    requires s.open.None? && s.text == "" && p.name !in Names(s.pieces) && BlockOk(p)
    ensures Run(s, SplitAfter(p.before + (p.begin + (p.body + rest))), n)
         == Run(Scan(s.pieces, Some(Open(p.name, p.before, p.begin)), p.body), SplitAfter(rest), n')
  {
    hide MarkerOn, SplitAfter, Run;
    var s1 := Scan(s.pieces, None, p.before);
    var s2 := Scan(s.pieces, Some(Open(p.name, p.before, p.begin)), "");
    RunText(s, p.before, p.begin + (p.body + rest), n);
    assert Absorb(s, p.before) == s1;
    n' := n + |CompleteLines(p.before)|;
    RunLine(s1, p.begin, p.body + rest, n');
    RunText(s2, p.body, rest, n' + 1);
    assert Absorb(s2, p.body) == s2.(text := p.body);
    n' := n' + 1 + |CompleteLines(p.body)|;
  }

  /** Reading one block and then the rest. */
  lemma RunBlock(s: Scan, p: Piece, rest: string, n: nat) returns (n': nat)
    requires s.open.None? && s.text == "" && p.name !in Names(s.pieces) && BlockOk(p) && IsLine(p.end)
    ensures Run(s, SplitAfter(p.before + (p.begin + (p.body + (p.end + rest)))), n)
         == Run(Scan(s.pieces + [p], None, ""), SplitAfter(rest), n')
  {
    hide MarkerOn, SplitAfter, Run;
    n' := RunToEnd(s, p, p.end + rest, n);
    RunLine(Scan(s.pieces, Some(Open(p.name, p.before, p.begin)), p.body), p.end, rest, n');
    n' := n' + 1;
  }

  lemma NamesAppend(pieces: seq<Piece>, p: Piece)
    ensures Names(pieces + [p]) == Names(pieces) + [p.name]
  {
  }

  ghost predicate EndsProperly(pieces: seq<Piece>, tail: string) {
    forall k :: 0 <= k < |pieces| ==>
      IsLine(pieces[k].end)
      || (k == |pieces| - 1 && SplitAfter(pieces[k].end) == [pieces[k].end] && tail == "")
  }

  lemma RunOne(s: Scan, line: string, n: nat)
    ensures Run(s, [line], n) == Step(s, line, n)
  {
    hide Step;
    assert [line][1..] == [];
  }

  /** Reading a last block whose end line has no newline. */
  lemma RunLastBlock(s: Scan, p: Piece, n: nat)
    requires s.open.None? && s.text == "" && p.name !in Names(s.pieces) && BlockOk(p) && SplitAfter(p.end) == [p.end]
    ensures Run(s, SplitAfter(p.before + (p.begin + (p.body + p.end))), n) == Ok(Scan(s.pieces + [p], None, ""))
  {
    hide MarkerOn;
    var n' := RunToEnd(s, p, p.end, n);
    var open := Scan(s.pieces, Some(Open(p.name, p.before, p.begin)), p.body);
    assert Closed(open.open.value, p.body, p.end) == p;
    RunOne(open, p.end, n');
  }

  lemma {:induction false} RunPieces(s: Scan, pieces: seq<Piece>, tail: string, n: nat)
    requires s.open.None? && s.text == "" && Distinct(Names(s.pieces + pieces)) && MarkerFree(tail)
    requires (forall k :: 0 <= k < |pieces| ==> BlockOk(pieces[k])) && EndsProperly(pieces, tail)
    ensures Run(s, SplitAfter(FlattenPieces(pieces) + tail), n) == Ok(Scan(s.pieces + pieces, None, tail))
    decreases |pieces|
  {
    hide BlockOk, MarkerOn, MarkerFree, Run;
    if pieces == [] {
      RunMarkerFree(s, tail, n);
      assert FlattenPieces(pieces) + tail == tail && s.pieces + pieces == s.pieces;
    } else {
      var p, rest := pieces[0], pieces[1..];
      FirstIsNew(s, pieces);
      assert s.pieces + pieces == s.pieces + [p] + rest;
      if IsLine(p.end) {
        Unfolded(pieces, tail);
        var n' := RunBlock(s, p, FlattenPieces(rest) + tail, n);
        RunPieces(Scan(s.pieces + [p], None, ""), rest, tail, n');
      } else {
        assert rest == [] && FlattenPieces(rest) == "";
        Unfolded(pieces, tail);
        assert FlattenPieces(rest) + tail == "" && p.end + "" == p.end;
        RunLastBlock(s, p, n);
        assert s.pieces + pieces == s.pieces + [p];
      }
    }
  }

  lemma FirstIsNew(s: Scan, pieces: seq<Piece>)
    requires pieces != [] && Distinct(Names(s.pieces + pieces))
    ensures pieces[0].name !in Names(s.pieces)
  {
    var all := Names(s.pieces + pieces);
    assert all[|s.pieces|] == pieces[0].name;
    forall k | 0 <= k < |s.pieces| ensures Names(s.pieces)[k] != pieces[0].name {
      assert all[k] == Names(s.pieces)[k];
    }
  }

  lemma Unfolded(pieces: seq<Piece>, tail: string)
    requires pieces != []
    ensures var p := pieces[0];
      FlattenPieces(pieces) + tail == p.before + (p.begin + (p.body + (p.end + (FlattenPieces(pieces[1..]) + tail))))
  {
  }

  /** A well-formed document is read back from its own text. */
  lemma WellFormedParses(d: Doc)
    requires WellFormed(d)
    ensures ParseDoc(Flatten(d)) == Ok(d)
  {
    assert EMPTY.pieces + d.pieces == d.pieces;
    assert Distinct(Names(EMPTY.pieces + d.pieces));
    assert EndsProperly(d.pieces, d.tail);
    hide BlockOk, MarkerFree, EndsProperly, Distinct, SplitAfter, FlattenPieces, Names;
    RunPieces(EMPTY, d.pieces, d.tail, 1);
  }

  // ----- every accepted document is well formed -----

  ghost predicate TextOk(text: string) {
    Complete(text) && MarkerFree(text)
  }

  ghost predicate ScanOk(s: Scan) {
    && Distinct(Names(s.pieces)) && TextOk(s.text)
    && (forall k :: 0 <= k < |s.pieces| ==> BlockOk(s.pieces[k]) && IsLine(s.pieces[k].end))
    && (s.open.Some? ==>
         var o := s.open.value;
         o.name !in Names(s.pieces) && TextOk(o.before) && IsLine(o.begin) && MarkerOn(o.begin) == Some(Marker(Begin, o.name)))
  }

  lemma TextOkExtends(text: string, line: string)
    requires TextOk(text) && MarkerOn(line) == None
    requires SplitAfter(line) == [line, ""] || SplitAfter(line) == [line]
    ensures MarkerFree(text + line)
    ensures IsLine(line) ==> Complete(text + line)
  {
    SplitAfterConcat(text, line);
    EmptyTextOk();
    hide MarkerOn;
    assert MarkerOn("") == None by {
      assert "" in SplitAfter("");
    }
    CompleteIfLine(text, line);
    hide SplitAfter;
    forall l <- SplitAfter(text + line) ensures MarkerOn(l) == None {
      assert l in SplitAfter(text) || l == line || l == "";
    }
  }

  lemma CompleteIfLine(text: string, line: string)
    ensures IsLine(line) ==> Complete(text + line)
  {
    if IsLine(line) {
      TailOfSplit(line);
      assert line != "";
    }
  }

  lemma EmptyTextOk()
    ensures TextOk("")
  {
    OrdinaryLine("");
  }

  lemma StepKeepsOk(s: Scan, line: string, n: nat)
    requires ScanOk(s) && IsLine(line) && Step(s, line, n).Ok?
    ensures ScanOk(Step(s, line, n).value)
  {
    hide MarkerOn, MarkerFree, SplitAfter;
    EmptyTextOk();
    match MarkerOn(line)
    case None => TextOkExtends(s.text, line);
    case Some(Marker(Begin, name)) =>
    case Some(Marker(End, name)) => NamesAppend(s.pieces, Closed(s.open.value, s.text, line));
  }

  lemma {:induction false} RunKeepsOk(s: Scan, lines: seq<string>, n: nat)
    requires ScanOk(s) && Run(s, lines, n).Ok? && forall line <- lines :: IsLine(line)
    ensures ScanOk(Run(s, lines, n).value)
    decreases |lines|
  {
    hide ScanOk, Step, IsLine;
    if lines != [] {
      StepKeepsOk(s, lines[0], n);
      RunKeepsOk(Step(s, lines[0], n).value, lines[1..], n + 1);
    }
  }

  ghost predicate LinesThenRest(pieces: seq<string>) {
    && |pieces| >= 1
    && (forall k :: 0 <= k < |pieces| - 1 ==> IsLine(pieces[k]))
    && SplitAfter(pieces[|pieces| - 1]) == [pieces[|pieces| - 1]]
  }

  lemma ExtendKeepsLines(c: char, rest: seq<string>)
    requires LinesThenRest(rest)
    ensures LinesThenRest(Extend(c, rest))
  {
    var pieces := Extend(c, rest);
    NewlineSplits();
    if c == '\n' {
      hide SplitAfter;
      assert forall k :: 1 <= k < |pieces| ==> pieces[k] == rest[k - 1];
    } else {
      SplitUnfolds([c] + rest[0], "");
      assert ([c] + rest[0])[1..] == rest[0] && [c] + rest[0] + "" == [c] + rest[0];
      hide SplitAfter;
      assert |rest| > 1 ==> IsLine(rest[0]);
      assert forall k :: 1 <= k < |pieces| ==> pieces[k] == rest[k];
    }
  }

  lemma {:induction false} PiecesAreLines(s: string)
    ensures LinesThenRest(SplitAfter(s))
  {
    if s != "" {
      PiecesAreLines(s[1..]);
      ExtendKeepsLines(s[0], SplitAfter(s[1..]));
    }
  }

  lemma NewlineSplits()
    ensures IsLine("\n")
  {
    assert "\n"[1..] == "";
  }

  /** An accepted document splits into distinctly named, well-delimited blocks and ordinary text. */
  lemma ParsedIsWellFormed(text: string)
    requires ParseDoc(text).Ok?
    ensures WellFormed(ParseDoc(text).value) && Flatten(ParseDoc(text).value) == text
  {
    hide Step, MarkerOn, MarkerFree, SplitAfter;
    ParseKeepsText(text);
    PiecesAreLines(text);
    EmptyTextOk();
    var lines := SplitAfter(text);
    var init, last := lines[..|lines| - 1], lines[|lines| - 1];
    assert lines == init + [last];
    RunAppend(EMPTY, init, [last], 1);
    RunKeepsOk(EMPTY, init, 1);
    var s := Run(EMPTY, init, 1).value;
    LastStep(s, last, 1 + |init|);
  }

  lemma LastStep(s: Scan, last: string, n: nat)
    requires ScanOk(s) && SplitAfter(last) == [last] && Then(Run(s, [last], n), Finish).Ok?
    ensures WellFormed(Then(Run(s, [last], n), Finish).value)
  {
    hide MarkerOn, MarkerFree, SplitAfter;
    assert [last][1..] == [];
    assert Run(s, [last], n) == Step(s, last, n);
    match MarkerOn(last)
    case None => TextOkExtends(s.text, last);
    case Some(Marker(Begin, name)) =>
    case Some(Marker(End, name)) =>
      EmptyTextOk();
      NamesAppend(s.pieces, Closed(s.open.value, s.text, last));
  }
}
