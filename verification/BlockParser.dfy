/** The loop of `parseBlocks`, with byte offsets, against the document model. */
module BlockParser {
  import opened Markers
  import opened Wrappers
  import opened ManagedDocument

  /** `markedBlock`: where a block's body lies in the document. */
  datatype Block = Block(name: string, bodyStart: nat, bodyEnd: nat, crlf: bool)

  predicate EndsCrlf(line: string) {
    |line| >= 2 && line[|line| - 2..] == "\r\n"
  }

  function BlockAt(p: Piece, offset: nat): Block {
    var start := offset + |p.before| + |p.begin|;
    Block(p.name, start, start + |p.body|, EndsCrlf(p.begin))
  }

  function BlocksOf(pieces: seq<Piece>, offset: nat): seq<Block> {
    if pieces == [] then []
    else [BlockAt(pieces[0], offset)] + BlocksOf(pieces[1..], offset + |FlattenPiece(pieces[0])|)
  }

  lemma {:induction false} BlocksAppend(pieces: seq<Piece>, p: Piece, offset: nat)
    ensures BlocksOf(pieces + [p], offset) == BlocksOf(pieces, offset) + [BlockAt(p, offset + |FlattenPieces(pieces)|)]
    decreases |pieces|
  {
    if pieces == [] {
      assert [p][1..] == [];
    } else {
      assert (pieces + [p])[1..] == pieces[1..] + [p];
      BlocksAppend(pieces[1..], p, offset + |FlattenPiece(pieces[0])|);
    }
  }

  /** The parser's variables describe what has been read. */
  ghost predicate Tracks(s: Scan, offset: nat, blocks: seq<Block>, open: Option<Block>, seen: set<string>) {
    && offset == |ScanText(s)|
    && blocks == BlocksOf(s.pieces, 0)
    && (open.Some? <==> s.open.Some?)
    && (open.Some? ==>
         && open.value.name == s.open.value.name
         && open.value.bodyStart == |FlattenPieces(s.pieces)| + |s.open.value.before| + |s.open.value.begin|
         && open.value.crlf == EndsCrlf(s.open.value.begin))
    && (forall name :: name in seen <==> name in Names(s.pieces) || (s.open.Some? && s.open.value.name == name))
  }

  /** The switch of `parseBlocks` on one line. */
  method ReadLine(ghost s: Scan, line: string, n: nat, lineStart: nat, blocks: seq<Block>, open: Option<Block>, seen: set<string>)
    returns (error: Option<ParseError>, blocks': seq<Block>, open': Option<Block>, seen': set<string>)
    requires Tracks(s, lineStart, blocks, open, seen)
    ensures error.Some? <==> Step(s, line, n).Err?
    ensures error.Some? ==> error.value == Step(s, line, n).error
    ensures error.None? ==> Tracks(Step(s, line, n).value, lineStart + |line|, blocks', open', seen')
  {
    hide FlattenPieces, BlocksOf;
    error, blocks', open', seen' := None, blocks, open, seen;
    var offset := lineStart + |line|;
    var m := MarkerOn(line);
    hide MarkerOn;
    match m
    case None =>
    case Some(Marker(Begin, name)) =>
      if open.Some? {
        error := Some(NestedBegin(n, name, open.value.name));
      } else if name in seen {
        error := Some(DuplicateBlock(n, name));
      } else {
        seen' := seen + {name};
        open' := Some(Block(name, offset, 0, EndsCrlf(line)));
      }
    case Some(Marker(End, name)) =>
      if open.None? || open.value.name != name {
        error := Some(UnmatchedEnd(n, name));
      } else {
        blocks' := blocks + [open.value.(bodyEnd := lineStart)];
        open' := None;
        ghost var p := Closed(s.open.value, s.text, line);
        BlocksAppend(s.pieces, p, 0);
        ClosingKeepsText(s.pieces, s.open.value, s.text, line);
        NamesAppend(s.pieces, p);
      }
  }

  /** `parseBlocks`. */
  method ParseBlocks(doc: string) returns (result: Parsed<seq<Block>>)
    ensures ParseDoc(doc).Err? ==> result == Err(ParseDoc(doc).error)
    ensures ParseDoc(doc).Ok? ==> result == Ok(BlocksOf(ParseDoc(doc).value.pieces, 0))
  {
    var lines := SplitAfter(doc);
    var blocks: seq<Block> := [];
    var open: Option<Block> := None;
    var seen: set<string> := {};
    var offset: nat := 0;
    ghost var s := EMPTY;
    for k := 0 to |lines|
      invariant Run(EMPTY, lines[..k], 1) == Ok(s)
      invariant Tracks(s, offset, blocks, open, seen)
    {
      var line := lines[k];
      OneMoreLine(lines, k, s);
      var error, blocks', open', seen' := ReadLine(s, line, k + 1, offset, blocks, open, seen);
      if error.Some? {
        return Err(error.value);
      }
      s := Step(s, line, k + 1).value;
      blocks, open, seen, offset := blocks', open', seen', offset + |line|;
    }
    assert lines[..|lines|] == lines;
    if open.Some? {
      return Err(NeverClosed(open.value.name));
    }
    return Ok(blocks);
  }

  lemma OneMoreLine(lines: seq<string>, k: nat, s: Scan)
    requires k < |lines| && Run(EMPTY, lines[..k], 1) == Ok(s)
    ensures Step(s, lines[k], k + 1).Err? ==> Run(EMPTY, lines, 1) == Err(Step(s, lines[k], k + 1).error)
    ensures Step(s, lines[k], k + 1).Ok? ==> Run(EMPTY, lines[..k + 1], 1) == Step(s, lines[k], k + 1)
  {
    hide Step;
    assert lines == lines[..k] + lines[k..] && lines[..k + 1] == lines[..k] + [lines[k]];
    RunAppend(EMPTY, lines[..k], lines[k..], 1);
    RunAppend(EMPTY, lines[..k], [lines[k]], 1);
    assert lines[k..][0] == lines[k] && [lines[k]][1..] == [];
    var next := Step(s, lines[k], k + 1);
    assert Run(s, [lines[k]], k + 1) == if next.Ok? then Run(next.value, [], k + 2) else Err(next.error);
  }

  // ----- the ranges that an accepted document yields -----

  /** Blocks in order, each a range of the document, none touching the next. */
  ghost predicate OrderedRanges(blocks: seq<Block>, size: nat) {
    && (forall k :: 0 <= k < |blocks| ==> blocks[k].bodyStart <= blocks[k].bodyEnd <= size)
    && forall k, l :: 0 <= k < l < |blocks| ==> blocks[k].bodyEnd < blocks[l].bodyStart
  }

  lemma RangesPrepend(b: Block, blocks: seq<Block>, size: nat, from: nat)
    requires OrderedRanges(blocks, size) && b.bodyStart <= b.bodyEnd < from <= size
    requires forall k :: 0 <= k < |blocks| ==> from < blocks[k].bodyStart
    ensures OrderedRanges([b] + blocks, size)
  {
  }

  lemma {:induction false} RangesOrdered(pieces: seq<Piece>, offset: nat)
    requires forall k :: 0 <= k < |pieces| ==> pieces[k].begin != "" && pieces[k].end != ""
    ensures OrderedRanges(BlocksOf(pieces, offset), offset + |FlattenPieces(pieces)|)
    ensures forall k :: 0 <= k < |BlocksOf(pieces, offset)| ==> offset < BlocksOf(pieces, offset)[k].bodyStart
    decreases |pieces|
  {
    if pieces != [] {
      var rest := offset + |FlattenPiece(pieces[0])|;
      assert BlockAt(pieces[0], offset).bodyEnd + |pieces[0].end| == rest;
      assert offset < BlockAt(pieces[0], offset).bodyStart;
      hide FlattenPiece, BlockAt, OrderedRanges;
      RangesOrdered(pieces[1..], rest);
      RangesPrepend(BlockAt(pieces[0], offset), BlocksOf(pieces[1..], rest), offset + |FlattenPieces(pieces)|, rest);
    }
  }

  /** The body of block `k` is exactly the bytes its range covers; the line that ends at
      `bodyStart` begins the block and the line that starts at `bodyEnd` ends it. */
  ghost predicate Delimits(doc: string, b: Block, p: Piece) {
    && |p.begin| <= b.bodyStart <= b.bodyEnd && b.bodyEnd + |p.end| <= |doc|
    && doc[b.bodyStart..b.bodyEnd] == p.body
    && doc[b.bodyStart - |p.begin|..b.bodyStart] == p.begin
    && doc[b.bodyEnd..b.bodyEnd + |p.end|] == p.end
  }

  lemma SliceAt(x: string, y: string, z: string)
    ensures (x + (y + z))[|x|..|x| + |y|] == y
  {
  }

  lemma {:induction false} BlocksDelimit(pieces: seq<Piece>, tail: string, pre: string, k: nat)
    requires k < |pieces|
    ensures |BlocksOf(pieces, |pre|)| == |pieces|
    ensures Delimits(pre + (FlattenPieces(pieces) + tail), BlocksOf(pieces, |pre|)[k], pieces[k])
    decreases |pieces|
  {
    hide Delimits;
    var p, rest := pieces[0], FlattenPieces(pieces[1..]) + tail;
    assert FlattenPieces(pieces) + tail == FlattenPiece(p) + rest;
    if k == 0 {
      BlocksLength(pieces, |pre|);
      FirstDelimits(p, rest, pre);
    } else {
      var pre' := pre + FlattenPiece(p);
      BlocksDelimit(pieces[1..], tail, pre', k - 1);
      assert pre + (FlattenPiece(p) + rest) == pre' + rest;
    }
  }

  lemma {:induction false} BlocksLength(pieces: seq<Piece>, offset: nat)
    ensures |BlocksOf(pieces, offset)| == |pieces|
    decreases |pieces|
  {
    if pieces != [] {
      BlocksLength(pieces[1..], offset + |FlattenPiece(pieces[0])|);
    }
  }

  lemma FirstDelimits(p: Piece, rest: string, pre: string)
    ensures Delimits(pre + (FlattenPiece(p) + rest), BlockAt(p, |pre|), p)
  {
    var x := pre + p.before;
    FirstPieceRegroups(p, rest, pre);
    SliceAt(x, p.begin, p.body + (p.end + rest));
    SliceAt(x + p.begin, p.body, p.end + rest);
    SliceAt(x + p.begin + p.body, p.end, rest);
  }

  lemma FirstPieceRegroups(p: Piece, rest: string, pre: string)
    ensures var doc, x := pre + (FlattenPiece(p) + rest), pre + p.before;
      && doc == x + (p.begin + (p.body + (p.end + rest)))
      && doc == x + p.begin + (p.body + (p.end + rest))
      && doc == x + p.begin + p.body + (p.end + rest)
  {
  }

  /** Block `k` of an accepted document: a range of the text between a begin line and an end line
      that name it, with no marker inside. */
  ghost predicate AcceptedBlock(doc: string, b: Block, p: Piece) {
    && b.name == p.name && Delimits(doc, b, p)
    && MarkerOn(p.begin) == Some(Marker(Begin, b.name)) && MarkerOn(p.end) == Some(Marker(End, b.name))
    && MarkerFree(doc[b.bodyStart..b.bodyEnd])
  }

  lemma AcceptedBlockAt(d: Doc, k: nat)
    requires WellFormed(d) && k < |d.pieces|
    ensures |BlocksOf(d.pieces, 0)| == |d.pieces| && AcceptedBlock(Flatten(d), BlocksOf(d.pieces, 0)[k], d.pieces[k])
    ensures d.pieces[k].begin != "" && d.pieces[k].end != ""
  {
    hide MarkerOn, MarkerFree, SplitAfter, FlattenPieces;
    assert BlockOk(d.pieces[k]);
    MarkerLineNonempty(d.pieces[k].begin);
    MarkerLineNonempty(d.pieces[k].end);
    BlocksDelimit(d.pieces, d.tail, "", k);
    assert "" + (FlattenPieces(d.pieces) + d.tail) == Flatten(d);
    BlockNamed(d.pieces, 0, k);
  }

  lemma {:induction false} BlockNamed(pieces: seq<Piece>, offset: nat, k: nat)
    requires k < |pieces|
    ensures |BlocksOf(pieces, offset)| == |pieces| && BlocksOf(pieces, offset)[k].name == pieces[k].name
    decreases |pieces|
  {
    BlocksLength(pieces, offset);
    if k > 0 {
      BlockNamed(pieces[1..], offset + |FlattenPiece(pieces[0])|, k - 1);
    }
  }

  lemma {:induction false} BlockCount(pieces: seq<Piece>, offset: nat)
    ensures |BlocksOf(pieces, offset)| == |pieces|
    decreases |pieces|
  {
    if pieces != [] {
      BlockCount(pieces[1..], offset + |FlattenPiece(pieces[0])|);
    }
  }

  lemma BlocksAccepted(d: Doc)
    requires WellFormed(d)
    ensures |BlocksOf(d.pieces, 0)| == |d.pieces| && Distinct(Names(d.pieces))
    ensures forall k :: 0 <= k < |d.pieces| ==> AcceptedBlock(Flatten(d), BlocksOf(d.pieces, 0)[k], d.pieces[k])
  {
    BlockCount(d.pieces, 0);
    assert Distinct(Names(d.pieces));
    hide *;
    forall k | 0 <= k < |d.pieces| ensures AcceptedBlock(Flatten(d), BlocksOf(d.pieces, 0)[k], d.pieces[k]) {
      AcceptedBlockAt(d, k);
    }
  }

  lemma MarkersNonempty(d: Doc)
    requires WellFormed(d)
    ensures forall k :: 0 <= k < |d.pieces| ==> d.pieces[k].begin != "" && d.pieces[k].end != ""
  {
    hide *;
    forall k | 0 <= k < |d.pieces| ensures d.pieces[k].begin != "" && d.pieces[k].end != "" {
      AcceptedBlockAt(d, k);
    }
  }

  lemma BlocksInOrder(d: Doc)
    requires WellFormed(d)
    ensures OrderedRanges(BlocksOf(d.pieces, 0), |Flatten(d)|)
  {
    hide *;
    MarkersNonempty(d);
    TailLast(d);
    var blocks, size := BlocksOf(d.pieces, 0), |FlattenPieces(d.pieces)|;
    RangesOrdered(d.pieces, 0);
    assert 0 + size == size;
    MoreRoom(blocks, size, |Flatten(d)|);
  }

  lemma TailLast(d: Doc)
    ensures |FlattenPieces(d.pieces)| <= |Flatten(d)|
  {
    hide FlattenPieces;
  }

  /** What acceptance means: ordered, disjoint, distinctly named ranges. */
  lemma AcceptedRanges(doc: string)
    requires ParseDoc(doc).Ok?
    ensures var d := ParseDoc(doc).value;
      var blocks := BlocksOf(d.pieces, 0);
      && |blocks| == |d.pieces| && OrderedRanges(blocks, |doc|) && Distinct(Names(d.pieces))
      && forall k :: 0 <= k < |blocks| ==> AcceptedBlock(doc, blocks[k], d.pieces[k])
  {
    hide *;
    ParsedIsWellFormed(doc);
    BlocksAccepted(ParseDoc(doc).value);
    BlocksInOrder(ParseDoc(doc).value);
  }

  lemma MoreRoom(blocks: seq<Block>, size: nat, larger: nat)
    requires OrderedRanges(blocks, size) && size <= larger
    ensures OrderedRanges(blocks, larger)
  {
  }

  lemma MarkerLineNonempty(line: string)
    requires MarkerOn(line) != None
    ensures line != ""
  {
    OrdinaryLine("");
  }
}
