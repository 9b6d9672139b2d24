/** When `Update` accepts what `Render` wrote. */
module ContextAcceptance {
  import opened Markers
  import opened Wrappers
  import opened ManagedDocument
  import opened ContextRender
  import opened ContextUpdate
  import opened ContextTheorems
  import opened ContextRoundTrip

  /** Block `name` is closed, so no end line can name it any more. */
  ghost predicate Finished(s: Scan, name: string) {
    name in Names(s.pieces) && (s.open.Some? ==> s.open.value.name !in Names(s.pieces))
  }

  lemma StepStaysFinished(s: Scan, line: string, n: nat, name: string)
    requires Finished(s, name) && Step(s, line, n).Ok?
    ensures Finished(Step(s, line, n).value, name)
  {
    hide MarkerOn;
    if s.open.Some? {
      NamesAppend(s.pieces, Closed(s.open.value, s.text, line));
    }
  }

  lemma {:induction false} RunStaysFinished(s: Scan, lines: seq<string>, n: nat, name: string)
    requires Finished(s, name) && Run(s, lines, n).Ok?
    ensures Finished(Run(s, lines, n).value, name)
    decreases |lines|
  {
    hide Step, Finished;
    if lines != [] {
      StepStaysFinished(s, lines[0], n, name);
      RunStaysFinished(Step(s, lines[0], n).value, lines[1..], n + 1, name);
    }
  }

  /** A marker inside an open block either is rejected or closes the block. */
  lemma {:induction false} MarkerInBodyCloses(s: Scan, lines: seq<string>, n: nat)
    requires s.open.Some? && s.open.value.name !in Names(s.pieces)
    requires exists line :: line in lines && MarkerOn(line) != None
    requires Run(s, lines, n).Ok?
    ensures Finished(Run(s, lines, n).value, s.open.value.name)
    decreases |lines|
  {
    hide MarkerOn;
    var line := lines[0];
    if MarkerOn(line) == None {
      MarkerInBodyCloses(Absorb(s, line), lines[1..], n + 1);
    } else {
      NamesAppend(s.pieces, Closed(s.open.value, s.text, line));
      RunStaysFinished(Step(s, line, n).value, lines[1..], n + 1, s.open.value.name);
    }
  }

  lemma EndAfterFinished(s: Scan, end: string, name: string, n: nat)
    requires Finished(s, name) && MarkerOn(end) == Some(Marker(End, name))
    ensures Step(s, end, n).Err?
  {
    hide MarkerOn;
  }

  /** The end line of a block, which only the last line of a file may leave without its newline. */
  ghost predicate EndsBlock(end: string, name: string, rest: string) {
    MarkerOn(end) == Some(Marker(End, name)) && (IsLine(end) || (SplitAfter(end) == [end] && rest == ""))
  }

  /** A body with a marker line makes its block unreadable. */
  lemma MarkedBodyFails(s: Scan, name: string, body: string, end: string, rest: string, n: nat)
    requires s.open.Some? && s.open.value.name == name && name !in Names(s.pieces)
    requires Complete(body) && !MarkerFree(body) && EndsBlock(end, name, rest)
    ensures Run(s, SplitAfter(body + (end + rest)), n).Err?
  {
    hide MarkerOn, SplitAfter, Run, Step, IsLine;
    SplitAfterConcat(body, end + rest);
    var m := n + |CompleteLines(body)|;
    RunAppend(s, CompleteLines(body), SplitAfter(end + rest), n);
    EmptyIsMarkerFree();
    CompleteLinesConcat(body);
    var line :| line in SplitAfter(body) && MarkerOn(line) != None;
    assert line in CompleteLines(body);
    if Run(s, CompleteLines(body), n).Ok? {
      MarkerInBodyCloses(s, CompleteLines(body), n);
      var s' := Run(s, CompleteLines(body), n).value;
      EndAfterFinished(s', end, name, m);
      if IsLine(end) {
        RunLine(s', end, rest, m);
      } else {
        assert end + rest == end;
        RunOne(s', end, m);
      }
    }
  }

  // ----- the sections, below a title that may hold blocks of its own -----

  /** No block read so far has the name of a section. */
  ghost predicate Apart(pieces: seq<Piece>, blocks: seq<ManagedBlock>) {
    forall k :: 0 <= k < |blocks| ==> blocks[k].name !in Names(pieces)
  }

  ghost predicate CleanBodies(blocks: seq<ManagedBlock>, facts: Facts) {
    forall k :: 0 <= k < |blocks| ==> MarkerFree(BlockBody(blocks[k], facts))
  }

  /** One section is read exactly when its name is new and its body has no marker. */
  lemma SectionReads(s: Scan, b: ManagedBlock, lead: string, facts: Facts, rest: string, n: nat) returns (n': nat)
    requires s.open.None? && s.text == "" && Definable(b) && TextOk(lead)
    ensures b.name !in Names(s.pieces) && MarkerFree(BlockBody(b, facts)) ==>
      Run(s, SplitAfter(lead + (SectionText(b, facts) + rest)), n)
      == Run(Scan(s.pieces + [SectionPiece(b, lead, facts)], None, ""), SplitAfter(TodoText(b) + rest), n')
    ensures !(b.name !in Names(s.pieces) && MarkerFree(BlockBody(b, facts))) ==>
      Run(s, SplitAfter(lead + (SectionText(b, facts) + rest)), n).Err?
  {
    hide MarkerFree, MarkerOn, BlockBody, HeadingText, TodoText, SectionText, MarkerText;
    SectionUnfolds(b, lead, facts, rest);
    BodyComplete(b, facts);
    MarkerLineOk(Begin, b.name);
    MarkerLineOk(End, b.name);
    TextOkConcat(lead, HeadingText(b));
    var p := SectionPiece(b, lead, facts);
    if b.name !in Names(s.pieces) && MarkerFree(BlockBody(b, facts)) {
      n' := RunBlock(s, p, TodoText(b) + rest, n);
    } else {
      var s1 := Scan(s.pieces, None, p.before);
      RunText(s, p.before, p.begin + (p.body + (p.end + (TodoText(b) + rest))), n);
      assert Absorb(s, p.before) == s1;
      n' := n + |CompleteLines(p.before)|;
      RunLine(s1, p.begin, p.body + (p.end + (TodoText(b) + rest)), n');
      if b.name !in Names(s.pieces) {
        MarkedBodyFails(Scan(s.pieces, Some(Open(p.name, p.before, p.begin)), ""), p.name, p.body, p.end, TodoText(b) + rest, n' + 1);
      }
    }
  }

  /** All of them are read exactly when their names are new and no body has a marker. */
  lemma {:induction false} SectionsReadIff(s: Scan, blocks: seq<ManagedBlock>, lead: string, facts: Facts, n: nat)
    requires s.open.None? && s.text == "" && TextOk(lead) && Distinct(NamesOf(blocks))
    requires forall k :: 0 <= k < |blocks| ==> Definable(blocks[k])
    ensures var r := Run(s, SplitAfter(lead + SectionsText(blocks, facts)), n);
      && (r.Ok? <==> Apart(s.pieces, blocks) && CleanBodies(blocks, facts))
      && (r.Ok? ==> r.value.open.None? && |r.value.pieces| == |s.pieces| + |blocks|)
    decreases |blocks|
  {
    hide MarkerFree, BlockBody, Definable, SectionText, SectionPiece, TextOk;
    if |blocks| == 0 {
      assert lead + SectionsText(blocks, facts) == lead;
      ReadsText(s, lead, n);
    } else {
      var b, more := blocks[0], blocks[1..];
      var n' := SectionReads(s, b, lead, facts, SectionsText(more, facts), n);
      hide Run;
      assert NamesOf(blocks) == [b.name] + NamesOf(more);
      if b.name !in Names(s.pieces) && MarkerFree(BlockBody(b, facts)) {
        var p := SectionPiece(b, lead, facts);
        SectionPieceParts(b, lead, facts);
        TodoOk(b);
        DistinctTail(b.name, NamesOf(more));
        SectionsReadIff(Scan(s.pieces + [p], None, ""), more, TodoText(b), facts, n');
        ApartNext(s.pieces, p, blocks);
        CleanNext(blocks, facts);
      }
    }
  }

  lemma DistinctTail(name: string, rest: seq<string>)
    requires Distinct([name] + rest)
    ensures Distinct(rest)
  {
    var names := [name] + rest;
    forall i, j | 0 <= i < j < |rest| ensures rest[i] != rest[j] {
      assert names[i + 1] == rest[i] && names[j + 1] == rest[j];
    }
  }

  lemma ApartNext(pieces: seq<Piece>, p: Piece, blocks: seq<ManagedBlock>)
    requires |blocks| > 0 && p.name == blocks[0].name && Distinct(NamesOf(blocks))
    ensures Apart(pieces, blocks) <==> blocks[0].name !in Names(pieces) && Apart(pieces + [p], blocks[1..])
  {
    NamesAppend(pieces, p);
    hide Names;
    forall k | 1 <= k < |blocks| ensures blocks[k] == blocks[1..][k - 1] && blocks[k].name != p.name {
      assert NamesOf(blocks)[k] != NamesOf(blocks)[0];
    }
  }

  lemma CleanNext(blocks: seq<ManagedBlock>, facts: Facts)
    requires |blocks| > 0
    ensures CleanBodies(blocks, facts) <==> MarkerFree(BlockBody(blocks[0], facts)) && CleanBodies(blocks[1..], facts)
  {
    hide MarkerFree, BlockBody;
    forall k | 1 <= k < |blocks| ensures blocks[k] == blocks[1..][k - 1] {
    }
  }

  lemma ReadsText(s: Scan, text: string, n: nat)
    requires TextOk(text)
    ensures Run(s, SplitAfter(text), n) == Ok(Absorb(s, text))
  {
    hide MarkerOn, MarkerFree;
    RunMarkerFree(s, text, n);
  }

  // ----- the title -----

  /** The line count matters for errors alone. */
  lemma {:induction false} CountsApart(s: Scan, lines: seq<string>, n: nat, m: nat)
    ensures Run(s, lines, n).Ok? <==> Run(s, lines, m).Ok?
    ensures Run(s, lines, n).Ok? ==> Run(s, lines, n) == Run(s, lines, m)
    decreases |lines|
  {
    if lines != [] && Step(s, lines[0], n).Ok? {
      StepCounts(s, lines[0], n, m);
      CountsApart(Step(s, lines[0], n).value, lines[1..], n + 1, m + 1);
    } else if lines != [] {
      StepCounts(s, lines[0], n, m);
    }
  }

  lemma StepCounts(s: Scan, line: string, n: nat, m: nat)
    ensures Step(s, line, n).Ok? <==> Step(s, line, m).Ok?
    ensures Step(s, line, n).Ok? ==> Step(s, line, n) == Step(s, line, m)
  {
    hide MarkerOn;
  }

  lemma NothingMore(r: Parsed<Scan>, n: nat)
    ensures RunOn(r, SplitAfter(""), n) == r
  {
    if r.Ok? {
      EmptyTextOk();
      hide MarkerOn, MarkerFree, SplitAfter, Run;
      ReadsText(r.value, "", n);
      assert Absorb(r.value, "") == r.value;
    }
  }

  /** A complete text in front of more is read first. */
  lemma ReadsInFront(text: string, rest: string)
    requires Complete(text)
    ensures Run(EMPTY, SplitAfter(text + rest), 1)
         == RunOn(Run(EMPTY, CompleteLines(text), 1), SplitAfter(rest), 1 + |CompleteLines(text)|)
  {
    hide *;
    SplitAfterConcat(text, rest);
    RunAppend(EMPTY, CompleteLines(text), SplitAfter(rest), 1);
  }

  /** And it is read so alone. */
  lemma ReadsAlone(text: string)
    requires Complete(text)
    ensures ParseDoc(text) == Then(Run(EMPTY, CompleteLines(text), 1), Finish)
  {
    hide SplitAfter, Run, CompleteLines, Finish;
    ReadsInFront(text, "");
    NothingMore(Run(EMPTY, CompleteLines(text), 1), 1 + |CompleteLines(text)|);
    assert text + "" == text;
  }

  lemma ReadsTextOk(text: string)
    requires Complete(text) && Run(EMPTY, CompleteLines(text), 1).Ok?
    ensures TextOk(Run(EMPTY, CompleteLines(text), 1).value.text)
  {
    EmptyTextOk();
    PiecesAreLines(text);
    hide MarkerOn, MarkerFree, SplitAfter, Run, Step;
    RunKeepsOk(EMPTY, CompleteLines(text), 1);
  }

  function AfterBegin(b: ManagedBlock, blocks: seq<ManagedBlock>, facts: Facts): string
    requires |blocks| > 0
  {
    BlockBody(b, facts) + (EndLine(b) + (TodoText(b) + SectionsText(blocks[1..], facts)))
  }

  lemma SectionsBegin(b: ManagedBlock, blocks: seq<ManagedBlock>, facts: Facts)
    requires |blocks| > 0 && blocks[0] == b
    ensures SectionsText(blocks, facts) == HeadingText(b) + (BeginLine(b) + AfterBegin(b, blocks, facts))
  {
    hide BlockBody, HeadingText, TodoText, SectionText, MarkerText;
    var rest := SectionsText(blocks[1..], facts);
    SectionUnfolds(b, "", facts, rest);
    assert "" + (SectionText(b, facts) + rest) == SectionText(b, facts) + rest;
    assert "" + HeadingText(b) == HeadingText(b);
  }

  lemma NestedFails(s: Scan, line: string, name: string, n: nat)
    requires MarkerOn(line) == Some(Marker(Begin, name))
    ensures s.open.Some? ==> Step(s, line, n).Err?
  {
    hide MarkerOn;
  }

  lemma OpenFails(s: Scan, text: string, line: string, more: string, name: string, n: nat)
    requires s.open.Some? && TextOk(text) && IsLine(line) && MarkerOn(line) == Some(Marker(Begin, name))
    ensures Run(s, SplitAfter(text + (line + more)), n).Err?
  {
    hide MarkerFree, MarkerOn, Run, SplitAfter, Step, IsLine;
    var m := n + |CompleteLines(text)|;
    RunText(s, text, line + more, n);
    RunLine(Absorb(s, text), line, more, m);
    NestedFails(Absorb(s, text), line, name, m);
  }

  lemma DefinableBegins(b: ManagedBlock)
    requires Definable(b)
    ensures TextOk(HeadingText(b)) && IsLine(BeginLine(b)) && MarkerOn(BeginLine(b)) == Some(Marker(Begin, b.name))
  {
    MarkerLineOk(Begin, b.name);
    hide MarkerText, MarkerOn, IsLine, TextOk, HeadingText;
  }

  /** A block left open above the sections swallows the first begin marker. */
  lemma OpenTitleFails(s: Scan, b: ManagedBlock, blocks: seq<ManagedBlock>, facts: Facts, n: nat)
    requires s.open.Some? && Definable(b) && |blocks| > 0 && blocks[0] == b
    ensures Run(s, SplitAfter(SectionsText(blocks, facts)), n).Err?
  {
    hide *;
    SectionsBegin(b, blocks, facts);
    DefinableBegins(b);
    OpenFails(s, HeadingText(b), BeginLine(b), AfterBegin(b, blocks, facts), b.name, n);
  }

  /** The title, read alone, is a document, and no block in it is named like a section. */
  ghost predicate TitleReads(facts: Facts) {
    var d := ParseDoc(TitleText(facts));
    d.Ok? && Apart(d.value.pieces, BLOCKS)
  }

  /** Exactly when `Update` accepts what `Render` wrote. */
  lemma RenderedAcceptedIff(facts: Facts)
    ensures OutcomeOf(RenderText(facts), facts).Updated? <==> TitleReads(facts) && BodiesMarkerFree(facts)
  {
    hide MarkerFree, BlockBody, Definable, SectionsText, Run, NamesOf, Judged, MissingFrom, RefreshAll, Flatten, TextOk;
    forall k | 0 <= k < |BLOCKS| ensures Definable(BLOCKS[k]) {
      BlocksDefinable(k);
    }
    BlockNamesDistinct();
    var title, sections := TitleText(facts), SectionsText(BLOCKS, facts);
    TitleComplete(facts);
    hide TitleText;
    ReadsInFront(title, sections);
    ReadsAlone(title);
    var r, m := Run(EMPTY, CompleteLines(title), 1), 1 + |CompleteLines(title)|;
    if r.Ok? && r.value.open.Some? {
      OpenTitleFails(r.value, BLOCKS[0], BLOCKS, facts, m);
    } else if r.Ok? {
      ReadsTextOk(title);
      ReadsBelow(r.value, facts, m);
    }
  }

  lemma TitleComplete(facts: Facts)
    ensures Complete(TitleText(facts))
  {
  }

  /** The sections below a title that was read. */
  lemma ReadsBelow(s: Scan, facts: Facts, n: nat)
    requires s.open.None? && TextOk(s.text)
    ensures var r := Run(s, SplitAfter(SectionsText(BLOCKS, facts)), n);
      && (r.Ok? <==> Apart(s.pieces, BLOCKS) && BodiesMarkerFree(facts))
      && (r.Ok? ==> r.value.open.None? && |r.value.pieces| > 0)
  {
    hide MarkerFree, BlockBody, Definable, SectionsText, Run, NamesOf;
    forall k | 0 <= k < |BLOCKS| ensures Definable(BLOCKS[k]) {
      BlocksDefinable(k);
    }
    BlockNamesDistinct();
    var none, sections := s.(text := ""), SectionsText(BLOCKS, facts);
    SectionsReadIff(none, BLOCKS, s.text, facts, 1);
    RunText(none, s.text, sections, 1);
    assert Absorb(none, s.text) == s;
    CountsApart(s, SplitAfter(sections), 1 + |CompleteLines(s.text)|, n);
    assert CleanBodies(BLOCKS, facts) <==> BodiesMarkerFree(facts);
  }

  /** A title of one line does no harm. */
  lemma OneLineTitle(facts: Facts)
    requires '\n' !in facts.name
    ensures TitleReads(facts)
  {
    TitleTextOk(facts);
    hide TextOk, TitleText, Names;
    ReadsText(EMPTY, TitleText(facts), 1);
  }

  // ----- updating what was accepted -----

  lemma ReadsScanOk(text: string)
    requires Complete(text) && Run(EMPTY, CompleteLines(text), 1).Ok?
    ensures ScanOk(Run(EMPTY, CompleteLines(text), 1).value)
  {
    EmptyTextOk();
    PiecesAreLines(text);
    hide MarkerOn, MarkerFree, SplitAfter, Run, Step;
    RunKeepsOk(EMPTY, CompleteLines(text), 1);
  }

  /** The blocks of a title and then those of the sections. */
  function Joined(above: seq<Piece>, d: Doc): Doc {
    Doc(above + d.pieces, d.tail)
  }

  lemma JoinedWellFormed(s: Scan, d: Doc)
    requires ScanOk(s) && s.open.None? && WellFormed(d) && d.pieces != [] && Distinct(Names(s.pieces + d.pieces))
    ensures WellFormed(Joined(s.pieces, d))
  {
    hide MarkerFree, BlockOk, IsLine, SplitAfter, Distinct, Names;
    var all := s.pieces + d.pieces;
    forall k | 0 <= k < |all|
      ensures BlockOk(all[k]) && (IsLine(all[k].end) || (k == |all| - 1 && SplitAfter(all[k].end) == [all[k].end] && d.tail == ""))
    {
      assert k < |s.pieces| ==> all[k] == s.pieces[k];
      assert k >= |s.pieces| ==> all[k] == d.pieces[k - |s.pieces|];
    }
  }

  lemma JoinedText(above: seq<Piece>, d: Doc)
    ensures Flatten(Joined(above, d)) == FlattenPieces(above) + Flatten(d)
  {
    var all := above + d.pieces;
    FlattenSplit(all, |above|);
    assert all[..|above|] == above && all[|above|..] == d.pieces;
    hide FlattenPieces;
  }

  lemma {:induction false} JudgedConcat(a: seq<Piece>, b: seq<Piece>, facts: Facts, v: Verdict)
    ensures Judged(a + b, facts, v) == Judged(a, facts, v) + Judged(b, facts, v)
    decreases |b|
  {
    hide Judge;
    if b == [] {
      assert a + b == a;
    } else {
      var n := |b| - 1;
      assert (a + b)[..|a + b| - 1] == a + b[..n];
      JudgedConcat(a, b[..n], facts, v);
    }
  }

  lemma {:induction false} AllUnknown(pieces: seq<Piece>, facts: Facts)
    requires forall k :: 0 <= k < |pieces| ==> Judge(pieces[k], facts) == Unknown
    ensures Judged(pieces, facts, Unknown) == Names(pieces)
  {
    hide Judge;
    if pieces != [] {
      var n := |pieces| - 1;
      AllUnknown(pieces[..n], facts);
      NamesAppend(pieces[..n], pieces[n]);
      assert pieces == pieces[..n] + [pieces[n]];
    }
  }

  /** Blocks that are not named like sections stay as they are. */
  lemma ApartStays(pieces: seq<Piece>, facts: Facts)
    requires Apart(pieces, BLOCKS)
    ensures RefreshAll(pieces, facts) == pieces && Judged(pieces, facts, Unknown) == Names(pieces)
  {
    forall k | 0 <= k < |pieces| ensures Refresh(pieces[k], facts) == pieces[k] && Judge(pieces[k], facts) == Unknown {
      assert Names(pieces)[k] == pieces[k].name;
      if FindIn(BLOCKS, pieces[k].name).Some? {
        FoundIsManaged(BLOCKS, pieces[k].name);
      }
    }
    hide Judge, Refresh, FindIn;
    AllUnknown(pieces, facts);
  }

  lemma ApartDistinct(above: seq<Piece>, d: Doc)
    requires Apart(above, BLOCKS) && Distinct(Names(above)) && Distinct(Names(d.pieces)) && Names(d.pieces) == NamesOf(BLOCKS)
    ensures Distinct(Names(above + d.pieces))
  {
    var names := Names(above + d.pieces);
    assert names == Names(above) + NamesOf(BLOCKS);
    forall i, j | 0 <= i < j < |names| ensures names[i] != names[j] {
      if i < |above| <= j {
        assert BLOCKS[j - |above|].name !in Names(above) && Names(above)[i] in Names(above);
      }
    }
  }

  lemma TitleParts(facts: Facts) returns (above: seq<Piece>, lead: string)
    requires TitleReads(facts)
    ensures ParseDoc(TitleText(facts)) == Ok(Doc(above, lead)) && ScanOk(Scan(above, None, lead))
    ensures FlattenPieces(above) + lead == TitleText(facts) && Apart(above, BLOCKS)
  {
    var title := TitleText(facts);
    TitleComplete(facts);
    ReadsAlone(title);
    ParsedIsWellFormed(title);
    above, lead := ParseDoc(title).value.pieces, ParseDoc(title).value.tail;
    assert Flatten(Doc(above, lead)) == FlattenPieces(above) + lead;
    hide TitleText, ScanOk, Run, WellFormed, FlattenPieces, Apart, CompleteLines;
    ReadsScanOk(title);
    assert Run(EMPTY, CompleteLines(title), 1).value == Scan(above, None, lead);
  }

  lemma NamesConcat(a: seq<Piece>, b: seq<Piece>)
    ensures Names(a + b) == Names(a) + Names(b)
  {
  }

  lemma BelowParses(above: seq<Piece>, lead: string, facts: Facts)
    requires ScanOk(Scan(above, None, lead)) && Apart(above, BLOCKS) && BodiesMarkerFree(facts)
    ensures ParseDoc(FlattenPieces(above) + (lead + SectionsText(BLOCKS, facts)))
         == Ok(Joined(above, SectionDoc(BLOCKS, lead, facts)))
  {
    var d := SectionDoc(BLOCKS, lead, facts);
    assert TextOk(lead) && Distinct(Names(above));
    SectionNames(BLOCKS, lead, facts);
    BlockNamesDistinct();
    assert |Names(d.pieces)| == |BLOCKS| by {
      SectionCount(BLOCKS);
    }
    hide ScanOk, MarkerFree, BlockBody, SectionDoc, SectionsText, FlattenPieces, Apart, WellFormed, Distinct, Flatten, ParseDoc;
    SectionsWellFormed(lead, facts);
    SectionDocText(BLOCKS, lead, facts);
    ApartDistinct(above, d);
    JoinedWellFormed(Scan(above, None, lead), d);
    JoinedText(above, d);
    WellFormedParses(Joined(above, d));
  }

  lemma BelowRefreshes(above: seq<Piece>, lead: string, f1: Facts, f2: Facts)
    requires Apart(above, BLOCKS)
    ensures var d1, d2 := SectionDoc(BLOCKS, lead, f1), SectionDoc(BLOCKS, lead, f2);
      && RefreshAll(above + d1.pieces, f2) == above + d2.pieces && d1.tail == d2.tail
      && Judged(above + d1.pieces, f2, Unknown) == Names(above)
      && MissingFrom(BLOCKS, Names(above + d1.pieces)) == []
  {
    var d1, d2 := SectionDoc(BLOCKS, lead, f1), SectionDoc(BLOCKS, lead, f2);
    forall k | 0 <= k < |BLOCKS| ensures IsName(BLOCKS[k].name) && FindIn(BLOCKS, BLOCKS[k].name) == Some(BLOCKS[k]) {
      NamesAreNames(k);
      BlocksFound(k);
    }
    SectionNames(BLOCKS, lead, f1);
    NamesConcat(above, d1.pieces);
    SectionsPresent(Names(above), Names(d1.pieces));
    hide FindIn, Refresh, Judge, SectionDoc, Judged, MissingFrom, NamesOf, IsName, Apart, Names;
    SectionsRefresh(BLOCKS, lead, f1, f2);
    ApartStays(above, f2);
    JudgedConcat(above, d1.pieces, f2, Unknown);
    NoneUnknown(d1.pieces, f2);
    assert Names(above) + [] == Names(above);
    RefreshConcat(above, d1.pieces, f2);
  }

  lemma RefreshConcat(a: seq<Piece>, b: seq<Piece>, facts: Facts)
    ensures RefreshAll(a + b, facts) == RefreshAll(a, facts) + RefreshAll(b, facts)
  {
    hide Refresh;
  }

  lemma SectionsPresent(above: seq<string>, names: seq<string>)
    requires names == NamesOf(BLOCKS)
    ensures MissingFrom(BLOCKS, above + names) == []
  {
    forall k | 0 <= k < |BLOCKS| ensures BLOCKS[k].name in above + names {
      assert names[k] == BLOCKS[k].name;
      assert (above + names)[|above| + k] == names[k];
    }
    NoneMissing(BLOCKS, above + names);
  }

  /** What `Update` makes of the blocks of a title and rendered sections below it. */
  lemma UpdateBelow(above: seq<Piece>, lead: string, f1: Facts, f2: Facts)
    requires ScanOk(Scan(above, None, lead)) && Apart(above, BLOCKS) && BodiesMarkerFree(f1)
    ensures var r := OutcomeOf(FlattenPieces(above) + (lead + SectionsText(BLOCKS, f1)), f2);
      && r.Updated? && r.content == FlattenPieces(above) + (lead + SectionsText(BLOCKS, f2))
      && r.missing == [] && r.unknown == Names(above)
  {
    var d1, d2 := SectionDoc(BLOCKS, lead, f1), SectionDoc(BLOCKS, lead, f2);
    SectionNames(BLOCKS, lead, f1);
    assert |Names(d1.pieces)| == |BLOCKS| by {
      SectionCount(BLOCKS);
    }
    hide ScanOk, SectionDoc, SectionsText, FlattenPieces, Apart, BodiesMarkerFree, Flatten, ParseDoc, Judged, MissingFrom, Names, RefreshAll;
    BelowParses(above, lead, f1);
    BelowRefreshes(above, lead, f1, f2);
    SectionDocText(BLOCKS, lead, f2);
    JoinedText(above, d2);
    assert Doc(RefreshAll(above + d1.pieces, f2), d1.tail) == Joined(above, d2);
  }

  lemma TitleAboveSections(above: seq<Piece>, lead: string, facts: Facts)
    requires FlattenPieces(above) + lead == TitleText(facts)
    ensures RenderText(facts) == FlattenPieces(above) + (lead + SectionsText(BLOCKS, facts))
  {
    hide FlattenPieces, TitleText, SectionsText;
  }

  /** Whenever a rendering is accepted, updating it to other facts of the same name gives their rendering. */
  lemma UpdateOfAccepted(f1: Facts, f2: Facts)
    requires f1.name == f2.name && OutcomeOf(RenderText(f1), f1).Updated?
    ensures var r := OutcomeOf(RenderText(f1), f2);
      && r.Updated? && r.content == RenderText(f2) && r.missing == []
      && ParseDoc(TitleText(f1)).Ok? && r.unknown == Names(ParseDoc(TitleText(f1)).value.pieces)
  {
    hide *;
    RenderedAcceptedIff(f1);
    SameTitle(f1, f2);
    var above, lead := TitleParts(f1);
    TitleAboveSections(above, lead, f1);
    TitleAboveSections(above, lead, f2);
    UpdateBelow(above, lead, f1, f2);
  }

  // ----- facts whose rendering is rejected -----

  lemma MarkerShows(before: string, kind: MarkerKind, name: string, after: string)
    requires Complete(before) && IsName(name)
    ensures !MarkerFree(before + ((MarkerText(kind, name) + "\n") + after))
  {
    var line := MarkerText(kind, name) + "\n";
    MarkerLineOk(kind, name);
    hide MarkerText, MarkerOn, SplitAfter;
    SplitAfterConcat(before, line + after);
    TailOfSplit(line);
    SplitAfterConcat(line, after);
    assert CompleteLines(line) == [line];
    assert line in SplitAfter(before + (line + after));
  }

  /** A repository whose only top-level directory has a name of three lines, the second of them a marker. */
  function MarkedDirectory(name: string): Facts {
    Facts(name, [], [], [], [], [Directory("x\n" + MarkerText(End, "layout") + "\ny/", "", "1 file")], [], [], [])
  }

  function DirectoryTail(d: Directory): string {
    "`: " + (if d.purpose != "" then d.purpose else "TODO: describe this directory") + " (" + d.contents + ")."
  }

  lemma DirectoryLineParts(d: Directory)
    ensures DirectoryLine(d) == "- `" + d.path + DirectoryTail(d)
  {
    var purpose := if d.purpose != "" then d.purpose else "TODO: describe this directory";
    assert DirectoryTail(d) == "`: " + (purpose + (" (" + d.contents + ")."));
    assert DirectoryLine(d) == ("- `" + d.path) + ("`: " + (purpose + (" (" + d.contents + ").")));
  }

  lemma ThreeLines(head: string, x: string, marker: string, newline: string, y: string, tail: string)
    ensures head + (x + newline + marker + newline + y) + tail + newline
         == (head + x + newline) + ((marker + newline) + (y + tail + newline))
  {
    var left := head + x + newline;
    assert head + (x + newline + marker + newline + y) == left + ((marker + newline) + y);
    assert left + ((marker + newline) + y) + tail + newline == left + (((marker + newline) + y) + tail + newline);
    assert ((marker + newline) + y) + tail + newline == (marker + newline) + (y + tail + newline);
  }

  lemma OneDirectoryBody(facts: Facts, d: Directory)
    requires facts.directories == [d]
    ensures BlockBody(LAYOUT, facts) == DirectoryLine(d) + "\n"
  {
    hide DirectoryLine;
    assert LayoutBody(facts) == [DirectoryLine(d)];
  }

  lemma MarkedLayout(facts: Facts, marker: string)
    requires facts.directories == [Directory("x\n" + marker + "\ny/", "", "1 file")]
    ensures exists rest :: BlockBody(LAYOUT, facts) == ("- `" + "x" + "\n") + ((marker + "\n") + rest)
  {
    var d := facts.directories[0];
    var tail := DirectoryTail(d);
    OneDirectoryBody(facts, d);
    DirectoryLineParts(d);
    hide DirectoryLine, DirectoryTail, BlockBody;
    assert d.path == "x" + "\n" + marker + "\n" + "y/";
    ThreeLines("- `", "x", marker, "\n", "y/", tail);
  }

  lemma MarkedDirectoryRejected(name: string)
    ensures !BodiesMarkerFree(MarkedDirectory(name))
    ensures !OutcomeOf(RenderText(MarkedDirectory(name)), MarkedDirectory(name)).Updated?
  {
    var facts, marker := MarkedDirectory(name), MarkerText(End, "layout");
    assert IsName("layout") by {
      NamesAreNames(2);
    }
    assert BLOCKS[2] == LAYOUT;
    hide MarkerText, MarkerFree, BlockBody, OutcomeOf, RenderText, TitleReads;
    MarkedLayout(facts, marker);
    var rest :| BlockBody(LAYOUT, facts) == ("- `" + "x" + "\n") + ((marker + "\n") + rest);
    MarkerShows("- `" + "x" + "\n", End, "layout", rest);
    RenderedAcceptedIff(facts);
  }

  lemma StrayEndFails(first: string, name: string, rest: string)
    requires TextOk(first) && IsName(name)
    ensures ParseDoc(first + ((MarkerText(End, name) + "\n") + rest)).Err?
  {
    var line := MarkerText(End, name) + "\n";
    MarkerLineOk(End, name);
    hide MarkerText, MarkerFree, MarkerOn, Run, SplitAfter;
    RunText(EMPTY, first, line + rest, 1);
    RunLine(Absorb(EMPTY, first), line, rest, 1 + |CompleteLines(first)|);
  }

  lemma TwoLineTitle(hash: string, x: string, marker: string, newline: string, notice: string)
    ensures hash + (x + newline + marker) + (newline + newline) + notice + newline
         == (hash + x + newline) + ((marker + newline) + (newline + notice + newline))
  {
    var left := hash + x + newline;
    assert hash + (x + newline + marker) == left + marker;
    assert (left + marker) + (newline + newline) == left + ((marker + newline) + newline);
  }

  lemma TitleOf(facts: Facts, marker: string)
    requires facts.name == "x\n" + marker
    ensures TitleText(facts) == ("# " + "x" + "\n") + ((marker + "\n") + ("\n" + NOTICE + "\n"))
  {
    assert "x\n" == "x" + "\n" && "\n\n" == "\n" + "\n";
    hide NOTICE;
    TwoLineTitle("# ", "x", marker, "\n", NOTICE);
  }

  /** A project name of two lines, the second of them a marker that ends nothing. */
  lemma MarkedTitleRejected(facts: Facts, name: string)
    requires IsName(name) && facts.name == "x\n" + MarkerText(End, name)
    ensures !TitleReads(facts) && !OutcomeOf(RenderText(facts), facts).Updated?
  {
    hide *;
    TitleOf(facts, MarkerText(End, name));
    assert '\n' !in "x";
    TitleLineOk("x");
    StrayEndFails("# " + "x" + "\n", name, "\n" + NOTICE + "\n");
    RenderedAcceptedIff(facts);
    Unread(facts);
  }

  lemma Unread(facts: Facts)
    requires ParseDoc(TitleText(facts)).Err?
    ensures !TitleReads(facts)
  {
  }
}
