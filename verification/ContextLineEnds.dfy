/** Windows line ends: a document is updated with them exactly as it is without. */
module ContextLineEnds {
  import opened Markers
  import opened MarkerSyntax
  import opened Wrappers
  import opened ManagedDocument
  import opened BlockParser
  import opened ContextRender
  import opened ContextUpdate
  import opened ContextTheorems
  import opened ContextAcceptance
  import Text

  // ----- turning line ends -----

  /** Turning the line ends of newline-free lines joins them by the other line end. */
  lemma {:induction false} CrlfJoins(lines: seq<string>)
    requires forall line <- lines :: '\n' !in line
    ensures Crlf(Text.Join(lines, "\n")) == Text.Join(lines, "\r\n")
  {
    if |lines| == 1 {
      CrlfPlain(lines[0]);
    } else if |lines| > 1 {
      CrlfJoins(lines[1..]);
      CrlfPlain(lines[0]);
      CrlfConcat(lines[0] + "\n", Text.Join(lines[1..], "\n"));
      CrlfOfLine(lines[0]);
    }
  }

  lemma CrlfOfLine(x: string)
    requires '\n' !in x
    ensures Crlf(x + "\n") == x + "\r\n"
  {
    CrlfConcat(x, "\n");
    CrlfPlain(x);
    assert Crlf("\n") == "\r\n" by {
      assert "\n"[1..] == "";
    }
  }

  /** Nothing is lost by it. */
  lemma {:induction false} CrlfInjective(a: string, b: string)
    requires Crlf(a) == Crlf(b)
    ensures a == b
  {
    if a != "" && b != "" {
      CrlfHead(a);
      CrlfHead(b);
      SameHead(a, b);
      var n := if a[0] == '\n' then 2 else 1;
      assert Crlf(a)[n..] == Crlf(a[1..]) && Crlf(b)[n..] == Crlf(b[1..]);
      CrlfInjective(a[1..], b[1..]);
      assert a == [a[0]] + a[1..] && b == [b[0]] + b[1..];
    }
  }

  lemma CrlfHead(a: string)
    requires a != ""
    ensures Crlf(a) == (if a[0] == '\n' then "\r\n" else [a[0]]) + Crlf(a[1..])
    ensures Crlf(a) != "" && Crlf(a)[0] != '\n'
  {
  }

  lemma SameHead(a: string, b: string)
    requires a != "" && b != "" && Crlf(a) == Crlf(b)
    ensures a[0] == b[0]
  {
    CrlfHead(a);
    CrlfHead(b);
    if a[1..] != "" {
      CrlfHead(a[1..]);
    }
    if b[1..] != "" {
      CrlfHead(b[1..]);
    }
  }

  function CrlfAll(lines: seq<string>): (turned: seq<string>)
    ensures |turned| == |lines|
  {
    seq(|lines|, k requires 0 <= k < |lines| => Crlf(lines[k]))
  }

  lemma ExtendCrlf(c: char, rest: seq<string>)
    requires |rest| >= 1
    ensures c == '\n' ==> Extend('\r', Extend('\n', CrlfAll(rest))) == CrlfAll(Extend('\n', rest))
    ensures c != '\n' ==> Extend(c, CrlfAll(rest)) == CrlfAll(Extend(c, rest))
  {
    var turned := CrlfAll(rest);
    if c == '\n' {
      CrlfHead("\n");
      assert "\n"[1..] == "" && ['\r'] + "\n" == "\r\n" && (["\n"] + turned)[1..] == turned;
      assert Crlf("\n") == "\r\n";
      var all := ["\n"] + rest;
      assert forall k :: 1 <= k < |all| ==> all[k] == rest[k - 1];
      assert CrlfAll(all) == ["\r\n"] + turned;
    } else {
      assert ([c] + rest[0])[1..] == rest[0];
      CrlfHead([c] + rest[0]);
    }
  }

  lemma {:induction false} SplitCrlf(s: string)
    ensures SplitAfter(Crlf(s)) == CrlfAll(SplitAfter(s))
  {
    if s == "" {
    } else {
      SplitCrlf(s[1..]);
      ExtendCrlf(s[0], SplitAfter(s[1..]));
      hide SplitAfter, Extend, CrlfAll;
      SplitHead(s);
      var y := Crlf(s[1..]);
      if s[0] == '\n' {
        var t := "\n" + y;
        assert Crlf(s) == "\r" + t && ("\r" + t)[1..] == t && t[1..] == y;
        SplitHead("\r" + t);
        SplitHead(t);
      } else {
        var t := [s[0]] + y;
        assert t[1..] == y;
        SplitHead(t);
      }
    }
  }

  lemma SplitHead(s: string)
    requires s != ""
    ensures SplitAfter(s) == Extend(s[0], SplitAfter(s[1..]))
  {
  }

  /** The pieces of a text without carriage returns have none, and a newline at most at their end. */
  ghost predicate Pure(line: string) {
    '\r' !in line && '\n' !in Chomp(line)
  }

  lemma {:induction false} PiecesPure(s: string)
    requires '\r' !in s
    ensures forall k :: 0 <= k < |SplitAfter(s)| ==> Pure(SplitAfter(s)[k])
  {
    if s != "" {
      var rest := SplitAfter(s[1..]);
      PiecesPure(s[1..]);
      SplitHead(s);
      hide SplitAfter;
      if s[0] != '\n' {
        PureExtends(s[0], rest[0]);
      }
      assert Pure("\n");
      assert s[0] != '\n' ==> forall k :: 1 <= k < |rest| ==> Extend(s[0], rest)[k] == rest[k];
    }
  }

  lemma PureExtends(c: char, line: string)
    requires Pure(line) && c != '\r' && c != '\n'
    ensures Pure([c] + line)
  {
    if line != "" && line[|line| - 1] == '\n' {
      assert Chomp([c] + line) == [c] + Chomp(line);
    }
  }

  lemma MarkerKept(line: string)
    requires Pure(line)
    ensures MarkerOn(Crlf(line)) == MarkerOn(line)
  {
    var x := Chomp(line);
    if line != "" && line[|line| - 1] == '\n' {
      assert line == x + "\n";
      CrlfOfLine(x);
      assert Chomp(x + "\r\n") == x + "\r" by {
        assert x + "\r\n" == (x + "\r") + "\n";
      }
      ReturnIgnored(x);
    } else {
      CrlfPlain(line);
    }
  }

  // ----- reading a document with them -----

  function CrlfPiece(p: Piece): Piece {
    Piece(p.name, Crlf(p.before), Crlf(p.begin), Crlf(p.body), Crlf(p.end))
  }

  function CrlfPieces(pieces: seq<Piece>): (turned: seq<Piece>)
    ensures |turned| == |pieces| && forall k :: 0 <= k < |pieces| ==> turned[k] == CrlfPiece(pieces[k])
  {
    seq(|pieces|, k requires 0 <= k < |pieces| => CrlfPiece(pieces[k]))
  }

  function CrlfOpen(open: Option<Open>): Option<Open> {
    match open
    case None => None
    case Some(o) => Some(Open(o.name, Crlf(o.before), Crlf(o.begin)))
  }

  function CrlfScan(s: Scan): Scan {
    Scan(CrlfPieces(s.pieces), CrlfOpen(s.open), Crlf(s.text))
  }

  function CrlfDoc(d: Doc): Doc {
    Doc(CrlfPieces(d.pieces), Crlf(d.tail))
  }

  function Turned<T>(r: Parsed<T>, turn: T -> T): Parsed<T> {
    match r
    case Err(e) => Err(e)
    case Ok(v) => Ok(turn(v))
  }

  lemma NamesKept(pieces: seq<Piece>)
    ensures Names(CrlfPieces(pieces)) == Names(pieces)
  {
    hide Crlf;
  }

  lemma StepKept(s: Scan, line: string, n: nat)
    requires Pure(line)
    ensures Step(CrlfScan(s), Crlf(line), n) == Turned(Step(s, line, n), CrlfScan)
  {
    MarkerKept(line);
    NamesKept(s.pieces);
    CrlfConcat(s.text, line);
    EmptyKept();
    if s.open.Some? {
      ClosedKept(s.pieces, s.open.value, s.text, line);
    }
    hide Pure, MarkerOn, Crlf, Names, CrlfPieces, Closed;
    match MarkerOn(line)
    case None =>
    case Some(Marker(Begin, name)) =>
    case Some(Marker(End, name)) =>
  }

  lemma ClosedKept(pieces: seq<Piece>, o: Open, body: string, end: string)
    ensures CrlfPieces(pieces + [Closed(o, body, end)]) ==
      CrlfPieces(pieces) + [Closed(Open(o.name, Crlf(o.before), Crlf(o.begin)), Crlf(body), Crlf(end))]
  {
    hide Crlf;
  }

  lemma EmptyKept()
    ensures Crlf("") == ""
  {
  }

  lemma {:induction false} RunKept(s: Scan, lines: seq<string>, n: nat)
    requires forall k :: 0 <= k < |lines| ==> Pure(lines[k])
    ensures Run(CrlfScan(s), CrlfAll(lines), n) == Turned(Run(s, lines, n), CrlfScan)
    decreases |lines|
  {
    hide Pure, Step, CrlfScan, Crlf;
    if lines != [] {
      StepKept(s, lines[0], n);
      assert CrlfAll(lines)[1..] == CrlfAll(lines[1..]);
      if Step(s, lines[0], n).Ok? {
        RunKept(Step(s, lines[0], n).value, lines[1..], n + 1);
      }
    }
  }

  /** A document without carriage returns is read the same way once its line ends are turned, or rejected on the same line. */
  lemma ParseKept(text: string)
    requires '\r' !in text
    ensures ParseDoc(Crlf(text)) == Turned(ParseDoc(text), CrlfDoc)
  {
    hide SplitAfter, Run, Crlf, CrlfPieces, CrlfScan, CrlfAll, Pure;
    PiecesPure(text);
    SplitCrlf(text);
    NothingReadKept();
    var lines := SplitAfter(text);
    RunKept(EMPTY, lines, 1);
    var r := Run(EMPTY, lines, 1);
    if r.Ok? {
      FinishKept(r.value);
    }
  }

  lemma NothingReadKept()
    ensures CrlfScan(EMPTY) == EMPTY
  {
    EmptyKept();
  }

  lemma FinishKept(s: Scan)
    ensures Finish(CrlfScan(s)) == Turned(Finish(s), CrlfDoc)
  {
    hide Crlf, CrlfPieces;
  }

  // ----- updating it -----

  /** The text of turned pieces is their text turned. */
  lemma {:induction false} FlattenKept(pieces: seq<Piece>)
    ensures FlattenPieces(CrlfPieces(pieces)) == Crlf(FlattenPieces(pieces))
  {
    if pieces == [] {
    } else {
      var p := pieces[0];
      FlattenKept(pieces[1..]);
      assert CrlfPieces(pieces)[1..] == CrlfPieces(pieces[1..]);
      CrlfConcat(p.before + p.begin + p.body + p.end, FlattenPieces(pieces[1..]));
      PieceKept(p);
    }
  }

  lemma PieceKept(p: Piece)
    ensures FlattenPiece(CrlfPiece(p)) == Crlf(FlattenPiece(p))
  {
    CrlfConcat(p.before + p.begin + p.body, p.end);
    CrlfConcat(p.before + p.begin, p.body);
    CrlfConcat(p.before, p.begin);
  }

  /** A line that a carriage return and a newline end. */
  lemma EndsCrlfIff(line: string)
    ensures EndsCrlf(line) <==> exists x :: line == x + "\r\n"
  {
    if EndsCrlf(line) {
      assert line == line[..|line| - 2] + "\r\n";
    }
    forall x | line == x + "\r\n" ensures EndsCrlf(line) {
      assert line[|line| - 2..] == "\r\n";
    }
  }

  /** A begin line decides the line ends of its body. */
  lemma BodyLineEnds(p: Piece, facts: Facts, block: ManagedBlock)
    requires FindIn(BLOCKS, p.name) == Some(block)
    ensures Refresh(p, facts) == p.(body := Refresh(p, facts).body)
    ensures (exists x :: p.begin == x + "\r\n") ==> Refresh(p, facts).body == Crlf(BlockBody(block, facts))
    ensures (forall x :: p.begin != x + "\r\n") ==> Refresh(p, facts).body == BlockBody(block, facts)
  {
    EndsCrlfIff(p.begin);
    hide BlockBody, Crlf, EndsCrlf;
  }

  ghost predicate TextPure(p: Piece) {
    '\r' !in p.begin && IsLine(p.begin)
  }

  lemma LineSplits(line: string)
    requires '\r' !in line && IsLine(line)
    ensures '\n' !in Chomp(line) && line == Chomp(line) + "\n"
  {
    PiecesPure(line);
    TailOfSplit(line);
    assert Pure(SplitAfter(line)[0]);
    hide SplitAfter;
  }

  lemma LineEndTurned(line: string)
    requires '\r' !in line && IsLine(line)
    ensures !EndsCrlf(line) && EndsCrlf(Crlf(line))
  {
    LineSplits(line);
    hide IsLine, Chomp, Crlf;
    var x := Chomp(line);
    CrlfOfLine(x);
    assert line[|line| - 1] == '\n' && (|line| >= 2 ==> line[|line| - 2] in line);
    assert (x + "\r\n")[|x|..] == "\r\n";
  }

  lemma RefreshKept(p: Piece, facts: Facts)
    requires TextPure(p)
    ensures Refresh(CrlfPiece(p), facts) == CrlfPiece(Refresh(p, facts))
    ensures Judge(CrlfPiece(p), facts) == Judge(p, facts)
  {
    LineEndTurned(p.begin);
    hide BlockBody, Crlf, EndsCrlf, FindIn;
    if FindIn(BLOCKS, p.name).Some? {
      var body := BlockBody(FindIn(BLOCKS, p.name).value, facts);
      if Crlf(p.body) == Crlf(body) {
        CrlfInjective(p.body, body);
      }
    }
  }

  lemma {:induction false} JudgedKept(pieces: seq<Piece>, facts: Facts, v: Verdict)
    requires forall k :: 0 <= k < |pieces| ==> TextPure(pieces[k])
    ensures Judged(CrlfPieces(pieces), facts, v) == Judged(pieces, facts, v)
  {
    hide TextPure, Judge, Crlf;
    if pieces != [] {
      var n := |pieces| - 1;
      JudgedKept(pieces[..n], facts, v);
      RefreshKept(pieces[n], facts);
      assert CrlfPieces(pieces)[..n] == CrlfPieces(pieces[..n]);
    }
  }

  lemma {:induction false} PiecesTextPure(pieces: seq<Piece>)
    requires '\r' !in FlattenPieces(pieces)
    ensures forall k :: 0 <= k < |pieces| ==> '\r' !in pieces[k].begin
  {
    if pieces != [] {
      var p, rest := pieces[0], pieces[1..];
      assert FlattenPieces(pieces) == p.before + p.begin + p.body + p.end + FlattenPieces(rest);
      forall c | c in p.begin || c in FlattenPieces(rest) ensures c in FlattenPieces(pieces) {
      }
      PiecesTextPure(rest);
      assert forall k :: 1 <= k < |pieces| ==> pieces[k] == rest[k - 1];
    }
  }

  lemma AcceptedPure(text: string)
    requires '\r' !in text && ParseDoc(text).Ok?
    ensures var d := ParseDoc(text).value;
      forall k :: 0 <= k < |d.pieces| ==> TextPure(d.pieces[k])
  {
    ParsedIsWellFormed(text);
    hide ParseDoc, FlattenPieces, MarkerFree, MarkerOn, IsLine, Complete;
    var d := ParseDoc(text).value;
    assert text == FlattenPieces(d.pieces) + d.tail;
    PiecesTextPure(d.pieces);
    assert forall k :: 0 <= k < |d.pieces| ==> BlockOk(d.pieces[k]);
  }

  lemma RefreshedKept(d: Doc, facts: Facts)
    requires forall k :: 0 <= k < |d.pieces| ==> TextPure(d.pieces[k])
    ensures Flatten(Doc(RefreshAll(CrlfPieces(d.pieces), facts), Crlf(d.tail))) == Crlf(Flatten(Doc(RefreshAll(d.pieces, facts), d.tail)))
  {
    hide Crlf, TextPure, Refresh, FlattenPieces;
    var renewed := RefreshAll(d.pieces, facts);
    forall k | 0 <= k < |d.pieces| ensures Refresh(CrlfPieces(d.pieces)[k], facts) == CrlfPiece(renewed[k]) {
      RefreshKept(d.pieces[k], facts);
    }
    assert RefreshAll(CrlfPieces(d.pieces), facts) == CrlfPieces(renewed);
    FlattenKept(renewed);
    CrlfConcat(FlattenPieces(renewed), d.tail);
  }

  /** Updating a document whose line ends are turned gives the update of the document with its line ends turned, and
      lists the same blocks as changed, current, unknown and missing; it is rejected exactly when that is, on the same line. */
  lemma LineEndsKept(text: string, facts: Facts)
    requires '\r' !in text
    ensures var plain, turned := OutcomeOf(text, facts), OutcomeOf(Crlf(text), facts);
      turned == if plain.Updated? then plain.(content := Crlf(plain.content)) else plain
  {
    ParseKept(text);
    if ParseDoc(text).Ok? {
      var d := ParseDoc(text).value;
      AcceptedPure(text);
      hide ParseDoc, Crlf, Flatten, RefreshAll, Judged, TextPure, MissingFrom, Names;
      RefreshedKept(d, facts);
      JudgedKept(d.pieces, facts, Changed);
      JudgedKept(d.pieces, facts, Unchanged);
      JudgedKept(d.pieces, facts, Unknown);
      NamesKept(d.pieces);
    }
  }

  /** So is a rendering with its line ends turned: it becomes the other rendering with its line ends turned. */
  lemma TurnedRenderingUpdated(f1: Facts, f2: Facts)
    requires f1.name == f2.name && '\r' !in RenderText(f1) && OutcomeOf(RenderText(f1), f1).Updated?
    ensures var r := OutcomeOf(Crlf(RenderText(f1)), f2);
      r.Updated? && r.content == Crlf(RenderText(f2)) && r.missing == []
    ensures var r := OutcomeOf(Crlf(RenderText(f1)), f1);
      r.Updated? && r.content == Crlf(RenderText(f1))
  {
    hide *;
    UpdateOfAccepted(f1, f1);
    UpdateOfAccepted(f1, f2);
    LineEndsKept(RenderText(f1), f1);
    LineEndsKept(RenderText(f1), f2);
  }
}
