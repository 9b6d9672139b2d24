/** `Update` applied to what `Render` wrote. */
module ContextRoundTrip {
  import opened Markers
  import opened Wrappers
  import opened ManagedDocument
  import opened BlockParser
  import opened ContextRender
  import opened ContextUpdate
  import opened ContextTheorems

  function BeginLine(b: ManagedBlock): string {
    MarkerText(Begin, b.name) + "\n"
  }

  function EndLine(b: ManagedBlock): string {
    MarkerText(End, b.name) + "\n"
  }

  function SectionPiece(b: ManagedBlock, lead: string, facts: Facts): Piece {
    Piece(b.name, lead + HeadingText(b), BeginLine(b), BlockBody(b, facts), EndLine(b))
  }

  /** Rendered sections, after the text `lead`, as a document. */
  function SectionDoc(blocks: seq<ManagedBlock>, lead: string, facts: Facts): Doc {
    if |blocks| == 0 then Doc([], lead)
    else
      var rest := SectionDoc(blocks[1..], TodoText(blocks[0]), facts);
      Doc([SectionPiece(blocks[0], lead, facts)] + rest.pieces, rest.tail)
  }

  lemma SectionUnfolds(b: ManagedBlock, lead: string, facts: Facts, rest: string)
    ensures lead + (SectionText(b, facts) + rest)
         == FlattenPiece(SectionPiece(b, lead, facts)) + (TodoText(b) + rest)
    ensures lead + (SectionText(b, facts) + rest)
         == (lead + HeadingText(b)) + (BeginLine(b) + (BlockBody(b, facts) + (EndLine(b) + (TodoText(b) + rest))))
  {
    hide MarkerText, BlockBody, HeadingText, TodoText;
  }

  lemma {:induction false} SectionDocText(blocks: seq<ManagedBlock>, lead: string, facts: Facts)
    ensures Flatten(SectionDoc(blocks, lead, facts)) == lead + SectionsText(blocks, facts)
    decreases |blocks|
  {
    hide SectionText, FlattenPiece, SectionPiece, TodoText;
    if |blocks| > 0 {
      var rest, d := SectionDoc(blocks[1..], TodoText(blocks[0]), facts), SectionDoc(blocks, lead, facts);
      SectionDocText(blocks[1..], TodoText(blocks[0]), facts);
      SectionUnfolds(blocks[0], lead, facts, SectionsText(blocks[1..], facts));
      assert d.pieces[1..] == rest.pieces;
      FirstPieceText(d, rest);
    }
  }

  lemma FirstPieceText(d: Doc, rest: Doc)
    requires d.pieces != [] && d.pieces[1..] == rest.pieces && d.tail == rest.tail
    ensures Flatten(d) == FlattenPiece(d.pieces[0]) + Flatten(rest)
  {
    hide FlattenPiece;
  }

  // ----- the fixed text of a section -----

  /** A block definition whose fixed text is ordinary and whose name a marker can carry. */
  ghost predicate Definable(b: ManagedBlock) {
    && IsName(b.name) && TextOk(HeadingText(b)) && TextOk(TodoText(b))
  }

  lemma LineText(line: string)
    requires PlainLine(line)
    ensures TextOk(line + "\n") && TextOk("\n" + line + "\n") && TextOk("\n" + line + "\n\n")
  {
    hide PlainLine, MarkerFree;
    EmptyPlain();
    TerminatedMarkerFree([line], "\n");
    TerminatedMarkerFree(["", line], "\n");
    TerminatedMarkerFree(["", line, ""], "\n");
    assert Terminate([], "\n") == "";
    assert [line][1..] == [] && ["", line][1..] == [line] && ["", line, ""][1..] == [line, ""] && [line, ""][1..] == [""];
    assert [""][1..] == [];
    assert Terminate([line], "\n") == line + "\n";
    assert Terminate(["", line], "\n") == "\n" + line + "\n";
    assert Terminate([line, ""], "\n") == line + "\n" + "\n";
    assert Terminate(["", line, ""], "\n") == "\n" + line + "\n\n";
  }

  lemma HeadingPlain(heading: string)
    requires '\n' !in heading
    ensures PlainLine("## " + heading)
  {
  }

  lemma SectionTextOk(b: ManagedBlock)
    requires IsName(b.name) && '\n' !in b.heading && PlainLine(b.todo)
    ensures Definable(b)
  {
    hide MarkerFree, PlainLine;
    LineText(b.todo);
    HeadingPlain(b.heading);
    LineText("## " + b.heading);
    EmptyPlain();
    LineText("");
    EmptyIsMarkerFree();
    assert "" + "\n" == "\n";
    assert "\n" + ("## " + b.heading) + "\n\n" == "\n" + ("## " + b.heading + "\n\n");
    assert "\n" + "" == "\n";
  }

  lemma NamesAreNames(k: nat)
    requires k < |BLOCKS|
    ensures IsName(BLOCKS[k].name)
  {
    hide PlainLine;
    assert IsName("overview") && IsName("commands") && IsName("layout");
    assert IsName("entrypoints") && IsName("tests") && IsName("conventions");
    hide IsName;
  }

  lemma HeadingsNewlineFree(k: nat)
    requires k < |BLOCKS|
    ensures '\n' !in BLOCKS[k].heading
  {
    assert '\n' !in "Commands" && '\n' !in "Layout" && '\n' !in "Entrypoints" && '\n' !in "Tests" && '\n' !in "Conventions";
  }

  lemma OverviewTodoPlain()
    ensures PlainLine(OVERVIEW_TODO)
  {
  }

  lemma ConventionsTodoPlain()
    ensures PlainLine(CONVENTIONS_TODO)
  {
  }

  lemma TodosPlain(k: nat)
    requires k < |BLOCKS|
    ensures PlainLine(BLOCKS[k].todo)
  {
    hide PlainLine;
    OverviewTodoPlain();
    ConventionsTodoPlain();
    EmptyPlain();
  }

  lemma BlocksDefinable(k: nat)
    requires k < |BLOCKS|
    ensures Definable(BLOCKS[k])
  {
    hide *;
    NamesAreNames(k);
    HeadingsNewlineFree(k);
    TodosPlain(k);
    SectionTextOk(BLOCKS[k]);
  }

  lemma NoticeTextNewlineFree()
    ensures '\n' !in NOTICE_TEXT && NOTICE_TEXT != "" && NOTICE_TEXT[0] == 'G'
  {
  }

  lemma NoticePlain()
    ensures '\n' !in NOTICE && MatchMarker(NOTICE) == None
  {
    hide MatchMarker;
    NoticeTextNewlineFree();
    assert '\n' !in "<!-- ";
    OrdinaryComment(NOTICE_TEXT);
  }

  lemma TextOkConcat(x: string, y: string)
    requires TextOk(x) && TextOk(y)
    ensures TextOk(x + y)
  {
    hide MarkerOn;
    SplitAfterConcat(x, y);
    if y == "" {
      assert x + y == x;
    } else {
      assert (x + y)[|x + y| - 1] == y[|y| - 1];
    }
    forall line <- SplitAfter(x + y) ensures MarkerOn(line) == None {
      assert line in SplitAfter(x) || line in SplitAfter(y);
    }
  }

  lemma NoticeLineOk()
    ensures TextOk(NOTICE + "\n")
  {
    NoticePlain();
    hide MatchMarker;
    var notice := NOTICE + "\n";
    SplitOfLine(NOTICE);
    assert Chomp(notice) == NOTICE;
    EmptyIsMarkerFree();
    hide SplitAfter, MarkerFree, MarkerOn;
    PrependLine(notice, "");
    assert notice + "" == notice;
  }

  lemma TitleLineOk(name: string)
    requires '\n' !in name
    ensures TextOk("# " + name + "\n")
  {
    hide MarkerFree;
    assert PlainLine("# " + name);
    LineText("# " + name);
  }

  lemma TitleAbove(name: string, notice: string)
    requires '\n' !in name && TextOk(notice + "\n")
    ensures TextOk("# " + name + "\n\n" + notice + "\n")
  {
    hide TextOk;
    var title := "# " + name + "\n";
    TitleLineOk(name);
    EmptyPlain();
    LineText("");
    assert "" + "\n" == "\n";
    TextOkConcat("\n", notice + "\n");
    TextOkConcat(title, "\n" + (notice + "\n"));
    assert "# " + name + "\n\n" + notice + "\n" == title + ("\n" + (notice + "\n"));
  }

  lemma TitleTextOk(facts: Facts)
    requires '\n' !in facts.name
    ensures TextOk(TitleText(facts))
  {
    hide TextOk;
    NoticeLineOk();
    TitleAbove(facts.name, NOTICE);
  }

  lemma MarkerLineOk(kind: MarkerKind, name: string)
    requires IsName(name)
    ensures IsLine(MarkerText(kind, name) + "\n") && MarkerOn(MarkerText(kind, name) + "\n") == Some(Marker(kind, name))
    ensures !EndsCrlf(MarkerText(kind, name) + "\n")
  {
    hide MatchMarker;
    var text := MarkerText(kind, name);
    assert forall c <- name :: IsNameChar(c);
    assert '\n' !in text;
    SplitOfLine(text);
    MarkerReadsBack(kind, name);
    assert Chomp(text + "\n") == text;
    assert (text + "\n")[|text| - 1] == '>';
  }

  lemma BodyComplete(b: ManagedBlock, facts: Facts)
    ensures Complete(BlockBody(b, facts))
  {
  }

  // ----- the rendered document -----

  function NamesOf(blocks: seq<ManagedBlock>): seq<string> {
    seq(|blocks|, k requires 0 <= k < |blocks| => blocks[k].name)
  }

  lemma SectionPieceOk(b: ManagedBlock, lead: string, facts: Facts)
    requires Definable(b) && TextOk(lead) && MarkerFree(BlockBody(b, facts))
    ensures BlockOk(SectionPiece(b, lead, facts)) && IsLine(EndLine(b))
  {
    hide MarkerFree, MarkerOn, MarkerText, BlockBody, HeadingText, IsLine;
    TextOkConcat(lead, HeadingText(b));
    MarkerLineOk(Begin, b.name);
    MarkerLineOk(End, b.name);
    BodyComplete(b, facts);
  }

  /** Each block's piece is well delimited. */
  ghost predicate PiecesFor(blocks: seq<ManagedBlock>, d: Doc) {
    && |d.pieces| == |blocks| && Names(d.pieces) == NamesOf(blocks) && TextOk(d.tail)
    && forall k :: 0 <= k < |blocks| ==> BlockOk(d.pieces[k]) && IsLine(d.pieces[k].end)
  }

  lemma PiecesForMore(b: ManagedBlock, blocks: seq<ManagedBlock>, p: Piece, d: Doc)
    requires PiecesFor(blocks, d) && BlockOk(p) && IsLine(p.end) && p.name == b.name
    ensures PiecesFor([b] + blocks, Doc([p] + d.pieces, d.tail))
  {
    hide BlockOk, IsLine, TextOk;
    assert Names([p] + d.pieces) == [p.name] + Names(d.pieces);
    assert NamesOf([b] + blocks) == [b.name] + NamesOf(blocks);
  }

  ghost predicate SectionsOk(blocks: seq<ManagedBlock>, facts: Facts) {
    forall k :: 0 <= k < |blocks| ==> Definable(blocks[k]) && MarkerFree(BlockBody(blocks[k], facts))
  }

  lemma FirstSectionOk(blocks: seq<ManagedBlock>, facts: Facts)
    requires |blocks| > 0 && SectionsOk(blocks, facts)
    ensures Definable(blocks[0]) && MarkerFree(BlockBody(blocks[0], facts)) && SectionsOk(blocks[1..], facts)
  {
    hide Definable, MarkerFree, BlockBody;
  }

  lemma {:induction false} SectionDocOk(blocks: seq<ManagedBlock>, lead: string, facts: Facts)
    requires TextOk(lead) && SectionsOk(blocks, facts)
    ensures PiecesFor(blocks, SectionDoc(blocks, lead, facts))
    decreases |blocks|
  {
    if |blocks| > 0 {
      hide *;
      var b, rest := blocks[0], SectionDoc(blocks[1..], TodoText(blocks[0]), facts);
      FirstSectionOk(blocks, facts);
      TodoOk(b);
      SectionDocOk(blocks[1..], TodoText(b), facts);
      SectionPieceOk(b, lead, facts);
      SectionPieceParts(b, lead, facts);
      PiecesForMore(b, blocks[1..], SectionPiece(b, lead, facts), rest);
      SectionDocCons(blocks, lead, facts);
    }
  }

  lemma SectionDocCons(blocks: seq<ManagedBlock>, lead: string, facts: Facts)
    requires |blocks| > 0
    ensures [blocks[0]] + blocks[1..] == blocks
    ensures var rest := SectionDoc(blocks[1..], TodoText(blocks[0]), facts);
      SectionDoc(blocks, lead, facts) == Doc([SectionPiece(blocks[0], lead, facts)] + rest.pieces, rest.tail)
  {
    hide SectionPiece, TodoText;
  }

  lemma TodoOk(b: ManagedBlock)
    requires Definable(b)
    ensures TextOk(TodoText(b))
  {
  }

  lemma SectionPieceParts(b: ManagedBlock, lead: string, facts: Facts)
    ensures SectionPiece(b, lead, facts).name == b.name && SectionPiece(b, lead, facts).end == EndLine(b)
  {
  }

  lemma BlockNamesDistinct()
    ensures Distinct(NamesOf(BLOCKS))
  {
    assert NamesOf(BLOCKS) == ["overview", "commands", "layout", "entrypoints", "tests", "conventions"];
    assert |"overview"| == 8 && |"commands"| == 8 && "overview"[0] == 'o' && "commands"[0] == 'c';
    assert |"layout"| == 6 && |"entrypoints"| == 11 && |"tests"| == 5 && |"conventions"| == 11;
    assert "entrypoints"[0] == 'e' && "conventions"[0] == 'c';
  }

  lemma SectionsWellFormed(lead: string, facts: Facts)
    requires TextOk(lead)
    requires forall k :: 0 <= k < |BLOCKS| ==> MarkerFree(BlockBody(BLOCKS[k], facts))
    ensures WellFormed(SectionDoc(BLOCKS, lead, facts))
    ensures ParseDoc(lead + SectionsText(BLOCKS, facts)) == Ok(SectionDoc(BLOCKS, lead, facts))
  {
    hide MarkerFree, BlockBody, Definable, SectionDoc, NamesOf, BlockOk, IsLine, SectionsText;
    forall k | 0 <= k < |BLOCKS| ensures Definable(BLOCKS[k]) {
      BlocksDefinable(k);
    }
    SectionDocOk(BLOCKS, lead, facts);
    BlockNamesDistinct();
    SectionDocText(BLOCKS, lead, facts);
    WellFormedParses(SectionDoc(BLOCKS, lead, facts));
  }

  // ----- updating a rendered document -----

  lemma SectionRefreshes(b: ManagedBlock, lead: string, f1: Facts, f2: Facts)
    requires IsName(b.name) && FindIn(BLOCKS, b.name) == Some(b)
    ensures Refresh(SectionPiece(b, lead, f1), f2) == SectionPiece(b, lead, f2)
    ensures Judge(SectionPiece(b, lead, f1), f2) != Unknown
  {
    hide BlockBody, FindIn;
    MarkerLineOk(Begin, b.name);
  }

  lemma {:induction false} SectionsRefresh(blocks: seq<ManagedBlock>, lead: string, f1: Facts, f2: Facts)
    requires forall k :: 0 <= k < |blocks| ==> IsName(blocks[k].name) && FindIn(BLOCKS, blocks[k].name) == Some(blocks[k])
    ensures RefreshAll(SectionDoc(blocks, lead, f1).pieces, f2) == SectionDoc(blocks, lead, f2).pieces
    ensures SectionDoc(blocks, lead, f1).tail == SectionDoc(blocks, lead, f2).tail
    ensures forall k :: 0 <= k < |SectionDoc(blocks, lead, f1).pieces| ==>
      Judge(SectionDoc(blocks, lead, f1).pieces[k], f2) != Unknown
    decreases |blocks|
  {
    hide SectionPiece, Refresh, FindIn, IsName, Judge;
    if |blocks| > 0 {
      SectionRefreshes(blocks[0], lead, f1, f2);
      SectionsRefresh(blocks[1..], TodoText(blocks[0]), f1, f2);
    }
  }

  lemma BlocksFound(k: nat)
    requires k < |BLOCKS|
    ensures FindIn(BLOCKS, BLOCKS[k].name) == Some(BLOCKS[k])
  {
    BlockNamesDistinct();
    FoundIfDistinct(BLOCKS, k);
  }

  lemma {:induction false} FoundIfDistinct(blocks: seq<ManagedBlock>, k: nat)
    requires k < |blocks| && Distinct(NamesOf(blocks))
    ensures FindIn(blocks, blocks[k].name) == Some(blocks[k])
  {
    var n := |blocks| - 1;
    assert NamesOf(blocks)[n] == blocks[n].name && NamesOf(blocks)[k] == blocks[k].name;
    if k < n {
      var init := blocks[..n];
      assert forall i :: 0 <= i < n ==> NamesOf(init)[i] == NamesOf(blocks)[i];
      FoundIfDistinct(init, k);
    }
  }

  lemma {:induction false} NoneUnknown(pieces: seq<Piece>, facts: Facts)
    requires forall k :: 0 <= k < |pieces| ==> Judge(pieces[k], facts) != Unknown
    ensures Judged(pieces, facts, Unknown) == []
  {
    hide Judge;
    if pieces != [] {
      NoneUnknown(pieces[..|pieces| - 1], facts);
    }
  }

  lemma {:induction false} NoneMissing(blocks: seq<ManagedBlock>, names: seq<string>)
    requires forall k :: 0 <= k < |blocks| ==> blocks[k].name in names
    ensures MissingFrom(blocks, names) == []
  {
    if |blocks| > 0 {
      NoneMissing(blocks[..|blocks| - 1], names);
    }
  }

  lemma AllPresent(blocks: seq<ManagedBlock>, names: seq<string>)
    requires names == NamesOf(blocks)
    ensures MissingFrom(blocks, names) == []
  {
    forall k | 0 <= k < |blocks| ensures blocks[k].name in names {
      assert names[k] == blocks[k].name;
    }
    NoneMissing(blocks, names);
  }

  /** Every body is free of marker lines. */
  ghost predicate BodiesMarkerFree(facts: Facts) {
    forall k :: 0 <= k < |BLOCKS| ==> MarkerFree(BlockBody(BLOCKS[k], facts))
  }

  /** Updating the sections of one set of facts, below any text without markers, gives the sections of another. */
  lemma UpdateOfSections(lead: string, f1: Facts, f2: Facts)
    requires TextOk(lead) && BodiesMarkerFree(f1)
    ensures var r := OutcomeOf(lead + SectionsText(BLOCKS, f1), f2);
      r.Updated? && r.content == lead + SectionsText(BLOCKS, f2) && r.unknown == [] && r.missing == []
  {
    hide MarkerFree, BlockBody, FindIn, Refresh, Judge, SectionDoc, SectionsText, Judged, MissingFrom, NamesOf, IsName, WellFormed;
    SectionsWellFormed(lead, f1);
    var d1, d2 := SectionDoc(BLOCKS, lead, f1), SectionDoc(BLOCKS, lead, f2);
    forall k | 0 <= k < |BLOCKS| ensures IsName(BLOCKS[k].name) && FindIn(BLOCKS, BLOCKS[k].name) == Some(BLOCKS[k]) {
      NamesAreNames(k);
      BlocksFound(k);
    }
    SectionsRefresh(BLOCKS, lead, f1, f2);
    SectionDocText(BLOCKS, lead, f2);
    NoneUnknown(d1.pieces, f2);
    SectionNames(BLOCKS, lead, f1);
    AllPresent(BLOCKS, Names(d1.pieces));
    assert |NamesOf(BLOCKS)| == 6 by {
      SectionCount(BLOCKS);
    }
    assert Doc(RefreshAll(d1.pieces, f2), d1.tail) == d2;
  }

  /** Updating what one set of facts rendered to another set of facts gives what the other renders. */
  lemma UpdateOfRender(f1: Facts, f2: Facts)
    requires f1.name == f2.name && '\n' !in f1.name && BodiesMarkerFree(f1)
    ensures var r := OutcomeOf(RenderText(f1), f2);
      r.Updated? && r.content == RenderText(f2) && r.unknown == [] && r.missing == []
  {
    TitleTextOk(f1);
    SameTitle(f1, f2);
    hide TitleText, SectionsText, TextOk, BodiesMarkerFree, OutcomeOf;
    UpdateOfSections(TitleText(f1), f1, f2);
  }

  lemma SameTitle(f1: Facts, f2: Facts)
    requires f1.name == f2.name
    ensures TitleText(f1) == TitleText(f2)
  {
  }

  lemma SectionCount(blocks: seq<ManagedBlock>)
    ensures |NamesOf(blocks)| == |blocks|
  {
  }

  lemma {:induction false} SectionNames(blocks: seq<ManagedBlock>, lead: string, facts: Facts)
    ensures Names(SectionDoc(blocks, lead, facts).pieces) == NamesOf(blocks)
    decreases |blocks|
  {
    hide SectionPiece, TodoText;
    if |blocks| > 0 {
      var rest := SectionDoc(blocks[1..], TodoText(blocks[0]), facts);
      SectionNames(blocks[1..], TodoText(blocks[0]), facts);
      SectionPieceParts(blocks[0], lead, facts);
      NamesPrepend(SectionPiece(blocks[0], lead, facts), rest.pieces);
      assert NamesOf(blocks) == [blocks[0].name] + NamesOf(blocks[1..]);
    }
  }

  lemma NamesPrepend(p: Piece, pieces: seq<Piece>)
    ensures Names([p] + pieces) == [p.name] + Names(pieces)
  {
  }

  lemma NewlineFreeBodies(facts: Facts)
    requires NewlineFree(facts)
    ensures BodiesMarkerFree(facts)
  {
    hide MarkerFree, NewlineFree, PlainLine;
    forall k | 0 <= k < |BLOCKS| ensures MarkerFree(BlockBody(BLOCKS[k], facts)) {
      BodiesPlain(facts, k);
      BodyClean(BLOCKS[k], facts, false);
    }
  }
}
