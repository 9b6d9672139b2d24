/** What `Update` promises over every document: a frame, a partition of names, idempotence, and
    agreement with `Render`. */
module ContextTheorems {
  import opened Markers
  import opened Wrappers
  import opened ManagedDocument
  import opened BlockParser
  import opened ContextRender
  import opened ContextUpdate
  import Sequences

  // ----- frame and partition -----

  /** The updated text is the old one with some bodies replaced, and only those of the blocks listed as changed. */
  lemma UpdateFrame(text: string, facts: Facts)
    requires OutcomeOf(text, facts).Updated?
    ensures var d, r := ParseDoc(text).value, OutcomeOf(text, facts);
      var pieces := RefreshAll(d.pieces, facts);
      && Flatten(d) == text && Flatten(Doc(pieces, d.tail)) == r.content
      && forall k :: 0 <= k < |pieces| ==>
           && pieces[k] == d.pieces[k].(body := pieces[k].body)
           && (pieces[k].body != d.pieces[k].body <==> d.pieces[k].name in r.changed)
  {
    hide FreshBody, FlattenPieces;
    ParsedIsWellFormed(text);
    var d, r := ParseDoc(text).value, OutcomeOf(text, facts);
    forall k | 0 <= k < |d.pieces|
      ensures Refresh(d.pieces[k], facts).body != d.pieces[k].body <==> d.pieces[k].name in r.changed
    {
      JudgedMember(d.pieces, facts, Changed, k);
    }
  }

  lemma JudgedSnoc(pieces: seq<Piece>, p: Piece, facts: Facts, v: Verdict)
    ensures Judged(pieces + [p], facts, v) == Judged(pieces, facts, v) + if Judge(p, facts) == v then [p.name] else []
  {
    hide Judge;
    assert (pieces + [p])[..|pieces|] == pieces;
  }

  /** The blocks with a verdict are listed in the order of the document. */
  lemma {:induction false} JudgedInOrder(a: seq<Piece>, b: seq<Piece>, facts: Facts, v: Verdict)
    ensures Judged(a + b, facts, v) == Judged(a, facts, v) + Judged(b, facts, v)
    decreases |b|
  {
    if b == [] {
      assert a + b == a && Judged(b, facts, v) == [];
    } else {
      hide Judged, Judge;
      var init, last := b[..|b| - 1], b[|b| - 1];
      Sequences.LastApart(a, b);
      JudgedInOrder(a, init, facts, v);
      JudgedSnoc(a + init, last, facts, v);
      JudgedSnoc(init, last, facts, v);
    }
  }

  lemma {:induction false} JudgedNames(pieces: seq<Piece>, facts: Facts, v: Verdict, name: string)
    ensures name in Judged(pieces, facts, v)
       <==> exists k :: 0 <= k < |pieces| && pieces[k].name == name && Judge(pieces[k], facts) == v
  {
    hide Judge;
    if pieces != [] {
      var n := |pieces| - 1;
      JudgedNames(pieces[..n], facts, v, name);
      if exists k :: 0 <= k < |pieces| && pieces[k].name == name && Judge(pieces[k], facts) == v {
        var k :| 0 <= k < |pieces| && pieces[k].name == name && Judge(pieces[k], facts) == v;
        assert k < n ==> pieces[..n][k] == pieces[k];
      }
      if name in Judged(pieces[..n], facts, v) {
        var k :| 0 <= k < n && pieces[..n][k].name == name && Judge(pieces[..n][k], facts) == v;
        assert pieces[k].name == name;
      }
    }
  }

  lemma JudgedMember(pieces: seq<Piece>, facts: Facts, v: Verdict, k: nat)
    requires Distinct(Names(pieces)) && k < |pieces|
    ensures pieces[k].name in Judged(pieces, facts, v) <==> Judge(pieces[k], facts) == v
  {
    hide Judge;
    JudgedNames(pieces, facts, v, pieces[k].name);
    assert forall j :: 0 <= j < |pieces| && pieces[j].name == pieces[k].name ==> Names(pieces)[j] == Names(pieces)[k];
  }

  ghost predicate Partition(c: seq<string>, u: seq<string>, w: seq<string>, names: seq<string>) {
    multiset(c) + multiset(u) + multiset(w) == multiset(names)
  }

  lemma PartitionStep(c: seq<string>, u: seq<string>, w: seq<string>, names: seq<string>, name: string, v: Verdict)
    requires Partition(c, u, w, names)
    ensures Partition(c + (if v == Changed then [name] else []), u + (if v == Unchanged then [name] else []),
                      w + (if v == Unknown then [name] else []), names + [name])
  {
  }

  ghost predicate Judges(pieces: seq<Piece>, facts: Facts) {
    Partition(Judged(pieces, facts, Changed), Judged(pieces, facts, Unchanged), Judged(pieces, facts, Unknown), Names(pieces))
  }

  lemma JudgesNext(pieces: seq<Piece>, facts: Facts, n: nat)
    requires n < |pieces| && Judges(pieces[..n], facts)
    ensures Judges(pieces[..n + 1], facts)
  {
    var init := pieces[..n];
    assert pieces[..n + 1] == init + [pieces[n]];
    NamesAppend(init, pieces[n]);
    JudgeNext(pieces, facts, n, Changed);
    JudgeNext(pieces, facts, n, Unchanged);
    JudgeNext(pieces, facts, n, Unknown);
    hide Judged, Judge, Names, Partition;
    PartitionStep(Judged(init, facts, Changed), Judged(init, facts, Unchanged), Judged(init, facts, Unknown),
                  Names(init), pieces[n].name, Judge(pieces[n], facts));
  }

  lemma {:induction false} JudgedPartition(pieces: seq<Piece>, facts: Facts)
    ensures Judges(pieces, facts)
  {
    if pieces != [] {
      var n := |pieces| - 1;
      JudgedPartition(pieces[..n], facts);
      hide Judges;
      JudgesNext(pieces, facts, n);
      assert pieces[..n + 1] == pieces;
    }
  }

  function BlockNames(blocks: seq<ManagedBlock>): seq<string> {
    if |blocks| == 0 then [] else BlockNames(blocks[..|blocks| - 1]) + [blocks[|blocks| - 1].name]
  }

  lemma {:induction false} MissingMember(blocks: seq<ManagedBlock>, names: seq<string>, name: string)
    ensures name in MissingFrom(blocks, names) <==> name in BlockNames(blocks) && name !in names
  {
    if |blocks| > 0 {
      MissingMember(blocks[..|blocks| - 1], names, name);
    }
  }

  lemma {:induction false} FindMember(blocks: seq<ManagedBlock>, name: string)
    ensures FindIn(blocks, name).Some? <==> name in BlockNames(blocks)
  {
    if |blocks| > 0 {
      FindMember(blocks[..|blocks| - 1], name);
    }
  }

  lemma NamesMember(pieces: seq<Piece>, name: string)
    ensures name in Names(pieces) <==> exists k :: 0 <= k < |pieces| && pieces[k].name == name
  {
    if exists k :: 0 <= k < |pieces| && pieces[k].name == name {
      var k :| 0 <= k < |pieces| && pieces[k].name == name;
      assert Names(pieces)[k] == name;
    }
  }

  lemma JudgedClassify(pieces: seq<Piece>, facts: Facts, name: string)
    ensures name in Judged(pieces, facts, Changed) || name in Judged(pieces, facts, Unchanged)
       <==> FindIn(BLOCKS, name).Some? && name in Names(pieces)
    ensures name in Judged(pieces, facts, Unknown) <==> FindIn(BLOCKS, name).None? && name in Names(pieces)
  {
    JudgedNames(pieces, facts, Changed, name);
    JudgedNames(pieces, facts, Unchanged, name);
    JudgedNames(pieces, facts, Unknown, name);
    NamesMember(pieces, name);
    hide FreshBody, FindIn, Judged, Names;
  }

  /** Changed, Unchanged and Unknown list every block found, each once; and a managed name is
      either among Changed and Unchanged or in Missing, never both. */
  lemma UpdatePartition(text: string, facts: Facts, name: string)
    requires OutcomeOf(text, facts).Updated?
    ensures var d, r := ParseDoc(text).value, OutcomeOf(text, facts);
      && Partition(r.changed, r.current, r.unknown, Names(d.pieces)) && Distinct(Names(d.pieces))
      && (name in r.changed || name in r.current <==> name in BlockNames(BLOCKS) && name in Names(d.pieces))
      && (name in r.missing <==> name in BlockNames(BLOCKS) && name !in Names(d.pieces))
      && (name in r.unknown <==> name !in BlockNames(BLOCKS) && name in Names(d.pieces))
  {
    hide Partition, FindIn, FlattenPieces, BlockNames, RefreshAll, Judged, Names, MissingFrom, BlockOk, IsLine, MarkerFree;
    ParsedIsWellFormed(text);
    var d := ParseDoc(text).value;
    JudgedPartition(d.pieces, facts);
    JudgedClassify(d.pieces, facts, name);
    MissingMember(BLOCKS, Names(d.pieces), name);
    FindMember(BLOCKS, name);
  }

  // ----- rendered bodies hold no markers -----

  /** Lines with a terminator after each. */
  function Terminate(lines: seq<string>, terminator: string): string {
    if lines == [] then "" else lines[0] + terminator + Terminate(lines[1..], terminator)
  }

  lemma {:induction false} SplitOfLine(line: string)
    requires '\n' !in line
    ensures SplitAfter(line + "\n") == [line + "\n", ""] && SplitAfter(line) == [line]
  {
    if line == "" {
      assert line + "\n" == "\n" && "\n"[1..] == "";
    } else {
      assert (line + "\n")[1..] == line[1..] + "\n";
      SplitOfLine(line[1..]);
      assert [line[0]] + (line[1..] + "\n") == line + "\n" && [line[0]] + line[1..] == line;
    }
  }

  lemma EmptyIsMarkerFree()
    ensures MarkerFree("") && MarkerOn("") == None
  {
    OrdinaryLine("");
  }

  lemma PlainLineWith(line: string, terminator: string)
    requires PlainLine(line) && (terminator == "\n" || terminator == "\r\n")
    ensures IsLine(line + terminator) && MarkerOn(line + terminator) == None
  {
    var l := if terminator == "\n" then line else line + "\r";
    assert line + terminator == l + "\n";
    SplitOfLine(l);
    assert Chomp(l + "\n") == l;
    OrdinaryLine(l);
  }

  lemma PrependLine(line: string, rest: string)
    requires IsLine(line) && MarkerOn(line) == None && Complete(rest) && MarkerFree(rest)
    ensures Complete(line + rest) && MarkerFree(line + rest)
  {
    hide MarkerOn;
    TailOfSplit(line);
    SplitAfterConcat(line, rest);
    assert CompleteLines(line) == [line];
    assert line != "";
  }

  lemma {:induction false} TerminatedMarkerFree(lines: seq<string>, terminator: string)
    requires forall line <- lines :: PlainLine(line)
    requires terminator == "\n" || terminator == "\r\n"
    ensures Complete(Terminate(lines, terminator)) && MarkerFree(Terminate(lines, terminator))
  {
    hide PlainLine, MarkerFree, MarkerOn, SplitAfter;
    EmptyIsMarkerFree();
    if lines != [] {
      TerminatedMarkerFree(lines[1..], terminator);
      PlainLineWith(lines[0], terminator);
      PrependLine(lines[0] + terminator, Terminate(lines[1..], terminator));
    }
  }

  lemma {:induction false} JoinIsTerminate(lines: seq<string>)
    requires lines != []
    ensures Text.Join(lines, "\n") + "\n" == Terminate(lines, "\n")
  {
    if |lines| > 1 {
      JoinIsTerminate(lines[1..]);
    } else {
      assert lines[1..] == [];
    }
  }

  lemma {:induction false} CrlfConcat(x: string, y: string)
    ensures Crlf(x + y) == Crlf(x) + Crlf(y)
  {
    if x == "" {
      assert x + y == y;
    } else {
      assert (x + y)[1..] == x[1..] + y;
      CrlfConcat(x[1..], y);
    }
  }

  lemma {:induction false} CrlfPlain(line: string)
    requires '\n' !in line
    ensures Crlf(line) == line
  {
    if line != "" {
      CrlfPlain(line[1..]);
    }
  }

  lemma {:induction false} CrlfTerminated(lines: seq<string>)
    requires forall line <- lines :: '\n' !in line
    ensures Crlf(Terminate(lines, "\n")) == Terminate(lines, "\r\n")
  {
    if lines != [] {
      var rest := Terminate(lines[1..], "\n");
      CrlfTerminated(lines[1..]);
      CrlfConcat(lines[0] + "\n", rest);
      CrlfConcat(lines[0], "\n");
      CrlfPlain(lines[0]);
      assert Crlf("\n") == "\r\n" by {
        assert "\n"[1..] == "";
      }
    }
  }

  /** Nothing a body writes, with either line ending, is a marker line. */
  ghost predicate Clean(facts: Facts) {
    forall k :: 0 <= k < |BLOCKS| ==>
      && MarkerFree(FreshBody(BLOCKS[k], facts, false)) && Complete(FreshBody(BLOCKS[k], facts, false))
      && MarkerFree(FreshBody(BLOCKS[k], facts, true)) && Complete(FreshBody(BLOCKS[k], facts, true))
  }

  lemma BodyClean(block: ManagedBlock, facts: Facts, crlf: bool)
    requires forall line <- block.body(facts) :: PlainLine(line)
    ensures MarkerFree(FreshBody(block, facts, crlf)) && Complete(FreshBody(block, facts, crlf))
  {
    hide MarkerFree;
    var lines := block.body(facts);
    assert BlockBody(block, facts) == Terminate(lines, "\n") by {
      if lines != [] {
        JoinIsTerminate(lines);
      }
    }
    CrlfTerminated(lines);
    TerminatedMarkerFree(lines, if crlf then "\r\n" else "\n");
  }

  /** Facts without newlines render to bodies without markers. */
  lemma NewlineFreeIsClean(facts: Facts)
    requires NewlineFree(facts)
    ensures Clean(facts)
  {
    hide MarkerFree, NewlineFree, FreshBody, PlainLine;
    forall k | 0 <= k < |BLOCKS|
      ensures MarkerFree(FreshBody(BLOCKS[k], facts, false)) && Complete(FreshBody(BLOCKS[k], facts, false))
      ensures MarkerFree(FreshBody(BLOCKS[k], facts, true)) && Complete(FreshBody(BLOCKS[k], facts, true))
    {
      BodiesPlain(facts, k);
      BodyClean(BLOCKS[k], facts, false);
      BodyClean(BLOCKS[k], facts, true);
    }
  }

  // ----- idempotence -----

  lemma {:induction false} FoundIsManaged(blocks: seq<ManagedBlock>, name: string)
    requires FindIn(blocks, name).Some?
    ensures exists k :: 0 <= k < |blocks| && FindIn(blocks, name) == Some(blocks[k]) && blocks[k].name == name
  {
    if blocks[|blocks| - 1].name == name {
    } else {
      FoundIsManaged(blocks[..|blocks| - 1], name);
      var k :| 0 <= k < |blocks| - 1 && FindIn(blocks[..|blocks| - 1], name) == Some(blocks[..|blocks| - 1][k]) && blocks[k].name == name;
      assert FindIn(blocks, name) == Some(blocks[k]);
    }
  }

  lemma {:induction false} CrlfComplete(s: string)
    requires Complete(s)
    ensures Complete(Crlf(s)) && (s != "" ==> Crlf(s) != "")
  {
    if |s| > 1 {
      CrlfComplete(s[1..]);
      var rest := Crlf(s[1..]);
      assert Crlf(s)[|Crlf(s)| - 1] == rest[|rest| - 1];
    }
  }

  lemma FreshComplete(block: ManagedBlock, facts: Facts, crlf: bool)
    ensures Complete(FreshBody(block, facts, crlf))
  {
    CrlfComplete(BlockBody(block, facts));
  }

  /** No managed block among the pieces gets a body with a marker line. */
  ghost predicate FreshPlain(pieces: seq<Piece>, facts: Facts) {
    forall k :: 0 <= k < |pieces| && FindIn(BLOCKS, pieces[k].name).Some? ==> MarkerFree(Refresh(pieces[k], facts).body)
  }

  lemma CleanIsPlain(pieces: seq<Piece>, facts: Facts)
    requires Clean(facts)
    ensures FreshPlain(pieces, facts)
  {
    hide MarkerFree, FreshBody, FindIn;
    forall k | 0 <= k < |pieces| && FindIn(BLOCKS, pieces[k].name).Some? ensures MarkerFree(Refresh(pieces[k], facts).body) {
      FoundIsManaged(BLOCKS, pieces[k].name);
    }
  }

  lemma RefreshKeepsBlock(p: Piece, facts: Facts)
    requires BlockOk(p) && (FindIn(BLOCKS, p.name).Some? ==> MarkerFree(Refresh(p, facts).body))
    ensures BlockOk(Refresh(p, facts)) && Refresh(Refresh(p, facts), facts) == Refresh(p, facts)
    ensures Judge(Refresh(p, facts), facts) == if FindIn(BLOCKS, p.name).None? then Unknown else Unchanged
  {
    hide MarkerFree, MarkerOn, FreshBody, FindIn;
    if FindIn(BLOCKS, p.name).Some? {
      FreshComplete(FindIn(BLOCKS, p.name).value, facts, EndsCrlf(p.begin));
    }
  }

  lemma RefreshedWellFormed(d: Doc, facts: Facts)
    requires WellFormed(d) && FreshPlain(d.pieces, facts)
    ensures WellFormed(Doc(RefreshAll(d.pieces, facts), d.tail))
    ensures RefreshAll(RefreshAll(d.pieces, facts), facts) == RefreshAll(d.pieces, facts)
  {
    hide BlockOk, MarkerFree, Refresh, IsLine, FindIn;
    var pieces := RefreshAll(d.pieces, facts);
    forall k | 0 <= k < |pieces|
      ensures BlockOk(pieces[k]) && Refresh(pieces[k], facts) == pieces[k]
      ensures pieces[k].end == d.pieces[k].end && Names(pieces)[k] == Names(d.pieces)[k]
    {
      RefreshKeepsBlock(d.pieces[k], facts);
      RefreshKeepsMarkers(d.pieces[k], facts);
    }
    assert Names(pieces) == Names(d.pieces);
  }

  lemma RefreshKeepsMarkers(p: Piece, facts: Facts)
    ensures Refresh(p, facts) == p.(body := Refresh(p, facts).body)
  {
    hide FreshBody, FindIn;
  }

  lemma {:induction false} NothingChanged(pieces: seq<Piece>, facts: Facts)
    requires forall k :: 0 <= k < |pieces| ==> Judge(pieces[k], facts) != Changed
    ensures Judged(pieces, facts, Changed) == []
  {
    hide Judge;
    if pieces != [] {
      NothingChanged(pieces[..|pieces| - 1], facts);
    }
  }

  /** As long as no managed block of an accepted document gets a marker line, a second update changes nothing. */
  lemma SecondUpdateSettles(text: string, facts: Facts)
    requires OutcomeOf(text, facts).Updated? && FreshPlain(ParseDoc(text).value.pieces, facts)
    ensures var once := OutcomeOf(text, facts);
      var twice := OutcomeOf(once.content, facts);
      && twice.Updated? && twice.content == once.content && twice.changed == []
      && twice.missing == once.missing
  {
    hide WellFormed, FreshPlain, MarkerFree, Refresh, Flatten, Judge;
    ParsedIsWellFormed(text);
    var d := ParseDoc(text).value;
    var pieces := RefreshAll(d.pieces, facts);
    RefreshedWellFormed(d, facts);
    WellFormedParses(Doc(pieces, d.tail));
    assert ParseDoc(OutcomeOf(text, facts).content) == Ok(Doc(pieces, d.tail));
    forall k | 0 <= k < |pieces| ensures Judge(pieces[k], facts) != Changed && Names(pieces)[k] == Names(d.pieces)[k] {
      RefreshedPiece(d, facts, k);
    }
    NothingChanged(pieces, facts);
    assert Names(pieces) == Names(d.pieces);
  }

  lemma RefreshedPiece(d: Doc, facts: Facts, k: nat)
    requires WellFormed(d) && FreshPlain(d.pieces, facts) && k < |d.pieces|
    ensures Judge(Refresh(d.pieces[k], facts), facts) != Changed && Refresh(d.pieces[k], facts).name == d.pieces[k].name
  {
    hide MarkerFree, Judge, FindIn;
    RefreshKeepsBlock(d.pieces[k], facts);
    RefreshKeepsMarkers(d.pieces[k], facts);
  }

  /** As long as no body that the facts render holds a marker line, so it is for every accepted document. */
  lemma UpdateIsIdempotent(text: string, facts: Facts)
    requires Clean(facts) && OutcomeOf(text, facts).Updated?
    ensures var once := OutcomeOf(text, facts);
      var twice := OutcomeOf(once.content, facts);
      && twice.Updated? && twice.content == once.content && twice.changed == []
      && twice.missing == once.missing
  {
    CleanIsPlain(ParseDoc(text).value.pieces, facts);
    hide Clean, FreshPlain, MarkerFree;
    SecondUpdateSettles(text, facts);
  }
}
