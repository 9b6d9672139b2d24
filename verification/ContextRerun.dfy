/** Exactly when a second `Update` accepts what the first one wrote. */
module ContextRerun {
  import opened Markers
  import opened Wrappers
  import opened ManagedDocument
  import opened BlockParser
  import opened ContextRender
  import opened ContextUpdate
  import opened ContextTheorems
  import opened ContextRoundTrip
  import opened ContextAcceptance

  /** A block that is well delimited, whatever its body. */
  ghost predicate Framed(p: Piece) {
    && Complete(p.before) && MarkerFree(p.before)
    && IsLine(p.begin) && MarkerOn(p.begin) == Some(Marker(Begin, p.name))
    && Complete(p.body) && MarkerOn(p.end) == Some(Marker(End, p.name))
  }

  lemma MarkedBlockFails(s: Scan, p: Piece, rest: string, n: nat)
    requires s.open.None? && s.text == "" && p.name !in Names(s.pieces)
    requires Framed(p) && !MarkerFree(p.body) && EndsBlock(p.end, p.name, rest)
    ensures Run(s, SplitAfter(p.before + (p.begin + (p.body + (p.end + rest)))), n).Err?
  {
    hide MarkerOn, MarkerFree, SplitAfter, Run, EndsBlock, IsLine;
    var s1 := Scan(s.pieces, None, p.before);
    var m := n + |CompleteLines(p.before)|;
    RunText(s, p.before, p.begin + (p.body + (p.end + rest)), n);
    assert Absorb(s, p.before) == s1;
    RunLine(s1, p.begin, p.body + (p.end + rest), m);
    MarkedBodyFails(Scan(s.pieces, Some(Open(p.name, p.before, p.begin)), ""), p.name, p.body, p.end, rest, m + 1);
  }

  lemma FramedIsOk(p: Piece)
    requires Framed(p) && MarkerFree(p.body)
    ensures BlockOk(p)
  {
    hide MarkerOn, MarkerFree, IsLine;
  }

  function TextOf(pieces: seq<Piece>, tail: string): string {
    FlattenPieces(pieces) + tail
  }

  function TextFrom(p: Piece, rest: string): string {
    p.before + (p.begin + (p.body + (p.end + rest)))
  }

  lemma TextUnfolds(pieces: seq<Piece>, tail: string)
    requires pieces != []
    ensures TextOf(pieces, tail) == TextFrom(pieces[0], TextOf(pieces[1..], tail))
  {
    Unfolded(pieces, tail);
    hide FlattenPieces;
  }

  lemma FirstReads(s: Scan, p: Piece, rest: string, n: nat) returns (n': nat)
    requires s.open.None? && s.text == "" && p.name !in Names(s.pieces) && Framed(p) && EndsBlock(p.end, p.name, rest)
    requires Run(s, SplitAfter(TextFrom(p, rest)), n).Ok?
    ensures MarkerFree(p.body)
    ensures IsLine(p.end) ==> Run(Scan(s.pieces + [p], None, ""), SplitAfter(rest), n').Ok?
  {
    hide Framed, MarkerFree, Run, SplitAfter, EndsBlock, IsLine, Names;
    n' := n;
    if !MarkerFree(p.body) {
      MarkedBlockFails(s, p, rest, n);
    } else if IsLine(p.end) {
      FramedIsOk(p);
      n' := RunBlock(s, p, rest, n);
    }
  }

  ghost predicate AllFramed(pieces: seq<Piece>) {
    forall k :: 0 <= k < |pieces| ==> Framed(pieces[k])
  }

  /** Well-delimited blocks, named apart from each other and from those before. */
  ghost predicate Readable(before: seq<Piece>, pieces: seq<Piece>, tail: string) {
    Distinct(Names(before + pieces)) && EndsProperly(pieces, tail) && AllFramed(pieces)
  }

  lemma FramedRest(pieces: seq<Piece>)
    requires pieces != [] && AllFramed(pieces)
    ensures Framed(pieces[0]) && AllFramed(pieces[1..])
  {
    hide Framed;
  }

  lemma FirstEnds(pieces: seq<Piece>, tail: string)
    requires pieces != [] && EndsProperly(pieces, tail) && Framed(pieces[0])
    ensures EndsBlock(pieces[0].end, pieces[0].name, TextOf(pieces[1..], tail))
    ensures EndsProperly(pieces[1..], tail) && (!IsLine(pieces[0].end) ==> |pieces| == 1)
  {
    hide MarkerOn, MarkerFree, SplitAfter, IsLine;
  }

  lemma Regrouped(before: seq<Piece>, pieces: seq<Piece>)
    requires pieces != []
    ensures before + pieces == before + [pieces[0]] + pieces[1..]
  {
  }

  lemma FirstAndRest(s: Scan, pieces: seq<Piece>, tail: string)
    requires pieces != [] && Readable(s.pieces, pieces, tail)
    ensures var p := pieces[0];
      && p.name !in Names(s.pieces) && Framed(p) && EndsBlock(p.end, p.name, TextOf(pieces[1..], tail))
      && Readable(s.pieces + [p], pieces[1..], tail) && (!IsLine(p.end) ==> |pieces| == 1)
  {
    hide Framed, AllFramed, EndsProperly, EndsBlock, TextOf, IsLine, Distinct, Names;
    FirstIsNew(s, pieces);
    FramedRest(pieces);
    FirstEnds(pieces, tail);
    Regrouped(s.pieces, pieces);
  }

  /** Blocks that are read have no marker in their bodies. */
  lemma {:induction false} PiecesReadOnlyIf(s: Scan, pieces: seq<Piece>, tail: string, n: nat, k: nat)
    requires s.open.None? && s.text == "" && Readable(s.pieces, pieces, tail)
    requires Run(s, SplitAfter(TextOf(pieces, tail)), n).Ok? && k < |pieces|
    ensures MarkerFree(pieces[k].body)
    decreases |pieces|
  {
    hide *;
    var p, more := pieces[0], pieces[1..];
    FirstAndRest(s, pieces, tail);
    TextUnfolds(pieces, tail);
    var n' := FirstReads(s, p, TextOf(more, tail), n);
    if k > 0 {
      PiecesReadOnlyIf(Scan(s.pieces + [p], None, ""), more, tail, n', k - 1);
    }
  }

  lemma RefreshStaysFramed(p: Piece, facts: Facts)
    requires BlockOk(p)
    ensures Framed(Refresh(p, facts)) && Refresh(p, facts).end == p.end && Refresh(p, facts).name == p.name
  {
    hide MarkerOn, MarkerFree, IsLine, FreshBody, FindIn;
    if FindIn(BLOCKS, p.name).Some? {
      FreshComplete(FindIn(BLOCKS, p.name).value, facts, EndsCrlf(p.begin));
    }
  }

  lemma RefreshedReadable(d: Doc, facts: Facts)
    requires WellFormed(d)
    ensures Readable([], RefreshAll(d.pieces, facts), d.tail)
  {
    var pieces := RefreshAll(d.pieces, facts);
    hide MarkerFree, MarkerOn, BlockOk, Framed, Refresh, IsLine, SplitAfter;
    forall k | 0 <= k < |pieces|
      ensures Framed(pieces[k]) && pieces[k].end == d.pieces[k].end && Names(pieces)[k] == Names(d.pieces)[k]
    {
      RefreshStaysFramed(d.pieces[k], facts);
    }
    assert Names(pieces) == Names(d.pieces) && [] + pieces == pieces;
  }

  lemma ReadsOnlyIfPlain(d: Doc, facts: Facts)
    requires WellFormed(d) && ParseDoc(Flatten(Doc(RefreshAll(d.pieces, facts), d.tail))).Ok?
    ensures FreshPlain(d.pieces, facts)
  {
    var pieces := RefreshAll(d.pieces, facts);
    RefreshedReadable(d, facts);
    assert Run(EMPTY, SplitAfter(TextOf(pieces, d.tail)), 1).Ok?;
    hide MarkerFree, Readable, Refresh, SplitAfter, Run, FlattenPieces, Flatten, TextOf, FindIn, WellFormed, ParseDoc;
    forall k | 0 <= k < |pieces| ensures MarkerFree(pieces[k].body) {
      PiecesReadOnlyIf(EMPTY, pieces, d.tail, 1, k);
    }
  }

  /** Exactly when a second update accepts what the first one wrote: when no managed block of the document gets a body
      with a marker line. Then it changes nothing. */
  lemma SecondUpdateIff(text: string, facts: Facts)
    requires OutcomeOf(text, facts).Updated?
    ensures var once := OutcomeOf(text, facts);
      var twice := OutcomeOf(once.content, facts);
      && (twice.Updated? <==> FreshPlain(ParseDoc(text).value.pieces, facts))
      && (twice.Updated? ==> twice.content == once.content && twice.changed == [] && twice.missing == once.missing)
  {
    var d := ParseDoc(text).value;
    var once := OutcomeOf(text, facts);
    assert once.content == Flatten(Doc(RefreshAll(d.pieces, facts), d.tail));
    assert OutcomeOf(once.content, facts).Updated? ==> ParseDoc(once.content).Ok?;
    hide *;
    ParsedIsWellFormed(text);
    if ParseDoc(once.content).Ok? {
      ReadsOnlyIfPlain(d, facts);
    }
    if FreshPlain(d.pieces, facts) {
      SecondUpdateSettles(text, facts);
    }
  }

  /** Such a document: the rendering of harmless facts, once a directory with a marker in its name has appeared. */
  lemma SecondUpdateRejected(facts: Facts)
    requires NewlineFree(facts)
    ensures var later := MarkedDirectory(facts.name);
      var once := OutcomeOf(RenderText(facts), later);
      once.Updated? && !OutcomeOf(once.content, later).Updated?
  {
    NewlineFreeBodies(facts);
    assert '\n' !in facts.name && MarkedDirectory(facts.name).name == facts.name;
    hide NewlineFree, MarkedDirectory, RenderText, OutcomeOf, BodiesMarkerFree;
    UpdateOfRender(facts, MarkedDirectory(facts.name));
    MarkedDirectoryRejected(facts.name);
  }
}
