/** `Update` in `update.go`: refreshing the managed bodies of a document in place. */
module ContextUpdate {
  import opened Wrappers
  import opened ManagedDocument
  import opened BlockParser
  import opened ContextRender

  /** `strings.ReplaceAll(s, "\n", "\r\n")`. */
  function Crlf(s: string): string {
    if s == "" then "" else (if s[0] == '\n' then "\r\n" else [s[0]]) + Crlf(s[1..])
  }

  /** The block a name refers to; later definitions would win, as in a map. */
  function FindIn(blocks: seq<ManagedBlock>, name: string): Option<ManagedBlock> {
    if |blocks| == 0 then None
    else if blocks[|blocks| - 1].name == name then Some(blocks[|blocks| - 1])
    else FindIn(blocks[..|blocks| - 1], name)
  }

  function FreshBody(block: ManagedBlock, facts: Facts, crlf: bool): string {
    if crlf then Crlf(BlockBody(block, facts)) else BlockBody(block, facts)
  }

  datatype Verdict = Changed | Unchanged | Unknown

  function Judge(p: Piece, facts: Facts): Verdict {
    match FindIn(BLOCKS, p.name)
    case None => Unknown
    case Some(b) => if p.body == FreshBody(b, facts, EndsCrlf(p.begin)) then Unchanged else Changed
  }

  function Refresh(p: Piece, facts: Facts): Piece {
    match FindIn(BLOCKS, p.name)
    case None => p
    case Some(b) => p.(body := FreshBody(b, facts, EndsCrlf(p.begin)))
  }

  function RefreshAll(pieces: seq<Piece>, facts: Facts): (renewed: seq<Piece>)
    ensures |renewed| == |pieces| && forall k :: 0 <= k < |pieces| ==> renewed[k] == Refresh(pieces[k], facts)
  {
    seq(|pieces|, k requires 0 <= k < |pieces| => Refresh(pieces[k], facts))
  }

  /** The names, in document order, of the pieces with a verdict. */
  function Judged(pieces: seq<Piece>, facts: Facts, v: Verdict): seq<string> {
    if pieces == [] then []
    else
      var last := pieces[|pieces| - 1];
      Judged(pieces[..|pieces| - 1], facts, v) + (if Judge(last, facts) == v then [last.name] else [])
  }

  /** The managed names that a document has no markers for. */
  function MissingFrom(blocks: seq<ManagedBlock>, names: seq<string>): seq<string> {
    if |blocks| == 0 then []
    else
      var last := blocks[|blocks| - 1];
      MissingFrom(blocks[..|blocks| - 1], names) + (if last.name in names then [] else [last.name])
  }

  datatype Outcome =
    | Updated(content: string, changed: seq<string>, current: seq<string>, unknown: seq<string>, missing: seq<string>)
    | Malformed(error: ParseError)
    | NoMarkers

  /** What `Update` returns, in terms of the document's blocks. */
  function OutcomeOf(text: string, facts: Facts): Outcome {
    match ParseDoc(text)
    case Err(e) => Malformed(e)
    case Ok(d) =>
      if d.pieces == [] then NoMarkers
      else
        Updated(Flatten(Doc(RefreshAll(d.pieces, facts), d.tail)),
                Judged(d.pieces, facts, Changed), Judged(d.pieces, facts, Unchanged), Judged(d.pieces, facts, Unknown),
                MissingFrom(BLOCKS, Names(d.pieces)))
  }

  method KnownBlocks() returns (known: map<string, ManagedBlock>)
    ensures forall name :: name in known <==> FindIn(BLOCKS, name).Some?
    ensures forall name <- known :: Some(known[name]) == FindIn(BLOCKS, name)
  {
    hide FreshBody;
    var blocks := BLOCKS;
    known := map[];
    for k := 0 to |blocks|
      invariant forall name :: name in known <==> FindIn(blocks[..k], name).Some?
      invariant forall name <- known :: Some(known[name]) == FindIn(blocks[..k], name)
    {
      assert blocks[..k + 1][..k] == blocks[..k];
      known := known[blocks[k].name := blocks[k]];
    }
    assert blocks[..|blocks|] == blocks;
  }

  method MissingNames(present: set<string>, ghost names: seq<string>) returns (missing: seq<string>)
    requires forall n :: n in present <==> n in names
    ensures missing == MissingFrom(BLOCKS, names)
  {
    var blocks := BLOCKS;
    missing := [];
    for k := 0 to |blocks|
      invariant missing == MissingFrom(blocks[..k], names)
    {
      assert blocks[..k + 1][..k] == blocks[..k];
      if blocks[k].name !in present {
        missing := missing + [blocks[k].name];
      }
    }
    assert blocks[..|blocks|] == blocks;
  }

  /** What has been spliced so far, together with the part of the input still to be copied up to
      `offset`, is the refreshed text of the blocks before `offset`. */
  ghost predicate Spliced(existing: string, b: string, cursor: nat, offset: nat, done: seq<Piece>, facts: Facts) {
    && cursor <= offset <= |existing|
    && b + existing[cursor..offset] == FlattenPieces(RefreshAll(done, facts))
  }

  /** The document position of the piece that starts at `offset`. */
  ghost predicate Occupies(existing: string, offset: nat, p: Piece) {
    && offset + |FlattenPiece(p)| <= |existing|
    && existing[offset..offset + |FlattenPiece(p)|] == FlattenPiece(p)
  }

  lemma SplicedKept(existing: string, b: string, cursor: nat, offset: nat, done: seq<Piece>, facts: Facts, p: Piece)
    requires Spliced(existing, b, cursor, offset, done, facts) && Occupies(existing, offset, p) && Refresh(p, facts) == p
    ensures Spliced(existing, b, cursor, offset + |FlattenPiece(p)|, done + [p], facts)
  {
    hide FlattenPiece, Refresh;
    var next := offset + |FlattenPiece(p)|;
    SlicesJoin(existing, cursor, offset, next);
    assert RefreshAll(done + [p], facts) == RefreshAll(done, facts) + [p];
    FlattenAppend(RefreshAll(done, facts), p);
  }

  lemma PieceParts(existing: string, offset: nat, p: Piece)
    requires Occupies(existing, offset, p)
    ensures var b := BlockAt(p, offset);
      && offset <= b.bodyStart <= b.bodyEnd <= offset + |FlattenPiece(p)| <= |existing|
      && existing[offset..b.bodyStart] == p.before + p.begin
      && existing[b.bodyStart..b.bodyEnd] == p.body
      && existing[b.bodyEnd..offset + |FlattenPiece(p)|] == p.end
  {
    var end, b := offset + |FlattenPiece(p)|, BlockAt(p, offset);
    FourParts(p.before, p.begin, p.body, p.end);
    SliceOfSlice(existing, offset, end, 0, b.bodyStart - offset);
    SliceOfSlice(existing, offset, end, b.bodyStart - offset, b.bodyEnd - offset);
    SliceOfSlice(existing, offset, end, b.bodyEnd - offset, end - offset);
  }

  lemma FourParts(a: string, b: string, c: string, d: string)
    ensures var w := a + b + c + d;
      && w[0..|a| + |b|] == a + b
      && w[|a| + |b|..|a| + |b| + |c|] == c
      && w[|a| + |b| + |c|..|a| + |b| + |c| + |d|] == d
  {
  }

  lemma SliceOfSlice(s: string, from: nat, to: nat, i: nat, j: nat)
    requires from <= to <= |s| && i <= j <= to - from
    ensures s[from..to][i..j] == s[from + i..from + j]
  {
    assert forall k :: 0 <= k < j - i ==> s[from..to][i..j][k] == s[from + i..from + j][k];
  }

  lemma SlicesJoin(s: string, i: nat, j: nat, k: nat)
    requires i <= j <= k <= |s|
    ensures s[i..j] + s[j..k] == s[i..k]
  {
  }

  lemma SplicedChanged(existing: string, b: string, cursor: nat, offset: nat, done: seq<Piece>, facts: Facts, p: Piece)
    requires Spliced(existing, b, cursor, offset, done, facts) && Occupies(existing, offset, p)
    ensures var block := BlockAt(p, offset);
      && offset <= block.bodyStart <= block.bodyEnd <= |existing|
      && Spliced(existing, b + existing[cursor..block.bodyStart] + Refresh(p, facts).body, block.bodyEnd,
                 offset + |FlattenPiece(p)|, done + [p], facts)
  {
    PieceParts(existing, offset, p);
    var block, renewed := BlockAt(p, offset), Refresh(p, facts);
    assert FlattenPiece(renewed) == p.before + p.begin + renewed.body + p.end;
    hide FlattenPiece, Refresh, FlattenPieces;
    SlicesJoin(existing, cursor, offset, block.bodyStart);
    assert RefreshAll(done + [p], facts) == RefreshAll(done, facts) + [renewed];
    hide RefreshAll;
    FlattenAppend(RefreshAll(done, facts), renewed);
    AroundBody(b, existing[cursor..offset], existing[offset..block.bodyStart], renewed.body, p.end);
  }

  lemma AroundBody(b: string, copied: string, lead: string, body: string, end: string)
    ensures b + (copied + lead) + body + end == (b + copied) + (lead + body + end)
  {
  }

  lemma {:induction false} BlockIndexed(pieces: seq<Piece>, offset: nat, k: nat)
    requires k < |pieces|
    ensures |BlocksOf(pieces, offset)| == |pieces|
    ensures BlocksOf(pieces, offset)[k] == BlockAt(pieces[k], offset + |FlattenPieces(pieces[..k])|)
    decreases |pieces|
  {
    hide FlattenPiece;
    BlocksLength(pieces, offset);
    if k > 0 {
      BlockIndexed(pieces[1..], offset + |FlattenPiece(pieces[0])|, k - 1);
      assert pieces[..k][1..] == pieces[1..][..k - 1];
    }
  }

  lemma {:induction false} PieceOccupies(pieces: seq<Piece>, tail: string, k: nat)
    requires k < |pieces|
    ensures Occupies(FlattenPieces(pieces) + tail, |FlattenPieces(pieces[..k])|, pieces[k])
    ensures FlattenPieces(pieces[..k + 1]) == FlattenPieces(pieces[..k]) + FlattenPiece(pieces[k])
  {
    hide FlattenPiece;
    assert pieces[..k + 1] == pieces[..k] + [pieces[k]];
    FlattenAppend(pieces[..k], pieces[k]);
    FlattenSplit(pieces, k + 1);
    var x, y, z := FlattenPieces(pieces[..k]), FlattenPiece(pieces[k]), FlattenPieces(pieces[k + 1..]) + tail;
    assert FlattenPieces(pieces) + tail == x + (y + z);
    SliceAt(x, y, z);
  }

  lemma {:induction false} FlattenSplit(pieces: seq<Piece>, k: nat)
    requires k <= |pieces|
    ensures FlattenPieces(pieces) == FlattenPieces(pieces[..k]) + FlattenPieces(pieces[k..])
    decreases |pieces| - k
  {
    if k == |pieces| {
      assert pieces[..k] == pieces;
    } else {
      FlattenSplit(pieces, k + 1);
      assert pieces[..k + 1] == pieces[..k] + [pieces[k]];
      FlattenAppend(pieces[..k], pieces[k]);
      assert pieces[k..][1..] == pieces[k + 1..];
    }
  }

  /** The variables of the splicing loop after `k` blocks. */
  ghost predicate LoopState(existing: string, d: Doc, facts: Facts, k: nat, b: string, cursor: nat,
                            changed: seq<string>, current: seq<string>, unknown: seq<string>, present: set<string>)
    requires k <= |d.pieces|
  {
    && Spliced(existing, b, cursor, |FlattenPieces(d.pieces[..k])|, d.pieces[..k], facts)
    && Listed(d.pieces[..k], facts, changed, current, unknown, present)
  }

  ghost predicate Listed(done: seq<Piece>, facts: Facts, changed: seq<string>, current: seq<string>, unknown: seq<string>,
                         present: set<string>) {
    && changed == Judged(done, facts, Changed)
    && current == Judged(done, facts, Unchanged)
    && unknown == Judged(done, facts, Unknown)
    && forall n :: n in present <==> n in Names(done)
  }

  lemma NextListed(pieces: seq<Piece>, k: nat, facts: Facts, changed: seq<string>, current: seq<string>, unknown: seq<string>,
                   present: set<string>)
    requires k < |pieces| && Listed(pieces[..k], facts, changed, current, unknown, present)
    ensures var v, name := Judge(pieces[k], facts), [pieces[k].name];
      Listed(pieces[..k + 1], facts, if v == Changed then changed + name else changed,
             if v == Unchanged then current + name else current, if v == Unknown then unknown + name else unknown,
             present + {pieces[k].name})
  {
    hide Judge, Judged, Names;
    assert pieces[..k + 1] == pieces[..k] + [pieces[k]];
    NamesAppend(pieces[..k], pieces[k]);
    JudgeNext(pieces, facts, k, Changed);
    JudgeNext(pieces, facts, k, Unchanged);
    JudgeNext(pieces, facts, k, Unknown);
  }

  lemma JudgeNext(pieces: seq<Piece>, facts: Facts, k: nat, v: Verdict)
    requires k < |pieces|
    ensures Judged(pieces[..k + 1], facts, v)
         == Judged(pieces[..k], facts, v) + (if Judge(pieces[k], facts) == v then [pieces[k].name] else [])
  {
    hide Judge;
    assert pieces[..k + 1][..k] == pieces[..k];
  }

  /** What the loop sees of block `k`. */
  lemma BlockInText(existing: string, d: Doc, k: nat)
    requires k < |d.pieces| && existing == Flatten(d)
    ensures var p, offset := d.pieces[k], |FlattenPieces(d.pieces[..k])|;
      var block := BlockAt(p, offset);
      && offset <= block.bodyStart <= block.bodyEnd <= |existing|
      && existing[block.bodyStart..block.bodyEnd] == p.body
      && Occupies(existing, offset, p)
      && |FlattenPieces(d.pieces[..k + 1])| == offset + |FlattenPiece(p)|
  {
    PieceOccupies(d.pieces, d.tail, k);
    PieceParts(existing, |FlattenPieces(d.pieces[..k])|, d.pieces[k]);
  }

  lemma NextLoopState(existing: string, d: Doc, facts: Facts, k: nat, b: string, cursor: nat,
                      changed: seq<string>, current: seq<string>, unknown: seq<string>, present: set<string>)
    requires k < |d.pieces| && existing == Flatten(d)
    requires LoopState(existing, d, facts, k, b, cursor, changed, current, unknown, present)
    ensures var p, offset := d.pieces[k], |FlattenPieces(d.pieces[..k])|;
      var block, name := BlockAt(p, offset), [p.name];
      && 0 <= offset && block.bodyStart <= block.bodyEnd <= |existing|
      && cursor <= block.bodyStart
      && existing[block.bodyStart..block.bodyEnd] == p.body
      && var v := Judge(p, facts);
         LoopState(existing, d, facts, k + 1,
                   if v == Changed then b + existing[cursor..block.bodyStart] + Refresh(p, facts).body else b,
                   if v == Changed then block.bodyEnd else cursor,
                   if v == Changed then changed + name else changed, if v == Unchanged then current + name else current,
                   if v == Unknown then unknown + name else unknown, present + {p.name})
  {
    BlockInText(existing, d, k);
    NextSpliced(existing, d, facts, k, b, cursor);
    SpliceBounds(existing, b, cursor, |FlattenPieces(d.pieces[..k])|, d.pieces[..k], facts, d.pieces[k]);
    hide Judge, Refresh, FlattenPieces, FlattenPiece, Spliced, Listed, BlockAt, Occupies;
    NextListed(d.pieces, k, facts, changed, current, unknown, present);
  }

  lemma NextSpliced(existing: string, d: Doc, facts: Facts, k: nat, b: string, cursor: nat)
    requires k < |d.pieces| && existing == Flatten(d)
    requires Spliced(existing, b, cursor, |FlattenPieces(d.pieces[..k])|, d.pieces[..k], facts)
    ensures var p := d.pieces[k];
      var block := BlockAt(p, |FlattenPieces(d.pieces[..k])|);
      && cursor <= block.bodyStart <= block.bodyEnd <= |existing|
      && Spliced(existing, if Judge(p, facts) == Changed then b + existing[cursor..block.bodyStart] + Refresh(p, facts).body else b,
                 if Judge(p, facts) == Changed then block.bodyEnd else cursor,
                 |FlattenPieces(d.pieces[..k + 1])|, d.pieces[..k + 1], facts)
  {
    var p, offset := d.pieces[k], |FlattenPieces(d.pieces[..k])|;
    assert Judge(p, facts) != Changed ==> Refresh(p, facts) == p;
    BlockInText(existing, d, k);
    SpliceBounds(existing, b, cursor, offset, d.pieces[..k], facts, p);
    hide Judge, Refresh, FlattenPieces, FlattenPiece, Spliced, BlockAt, Occupies;
    assert d.pieces[..k + 1] == d.pieces[..k] + [p];
    if Judge(p, facts) == Changed {
      SplicedChanged(existing, b, cursor, offset, d.pieces[..k], facts, p);
    } else {
      SplicedKept(existing, b, cursor, offset, d.pieces[..k], facts, p);
    }
  }

  lemma SpliceBounds(existing: string, b: string, cursor: nat, offset: nat, done: seq<Piece>, facts: Facts, p: Piece)
    requires Spliced(existing, b, cursor, offset, done, facts)
    ensures cursor <= BlockAt(p, offset).bodyStart
  {
  }

  lemma SplicingStarts(existing: string, d: Doc, facts: Facts)
    ensures LoopState(existing, d, facts, 0, "", 0, [], [], [], {})
  {
  }

  lemma SplicingEnds(existing: string, d: Doc, facts: Facts, b: string, cursor: nat,
                     changed: seq<string>, current: seq<string>, unknown: seq<string>, present: set<string>)
    requires existing == Flatten(d)
    requires LoopState(existing, d, facts, |d.pieces|, b, cursor, changed, current, unknown, present)
    ensures cursor <= |existing| && b + existing[cursor..] == Flatten(Doc(RefreshAll(d.pieces, facts), d.tail))
    ensures changed == Judged(d.pieces, facts, Changed) && current == Judged(d.pieces, facts, Unchanged)
    ensures unknown == Judged(d.pieces, facts, Unknown)
    ensures forall n :: n in present <==> n in Names(d.pieces)
  {
    assert d.pieces[..|d.pieces|] == d.pieces;
    var offset := |FlattenPieces(d.pieces)|;
    assert existing[cursor..] == existing[cursor..offset] + existing[offset..];
    assert existing[offset..] == d.tail;
  }

  /** `Update`. */
  method Update(existing: string, facts: Facts) returns (result: Outcome)
    ensures result == OutcomeOf(existing, facts)
  {
    var parsed := ParseBlocks(existing);
    if parsed.Err? {
      return Malformed(parsed.error);
    }
    var blocks := parsed.value;
    ghost var d := ParseDoc(existing).value;
    BlocksLength(d.pieces, 0);
    if blocks == [] {
      return NoMarkers;
    }
    ParseKeepsText(existing);
    result := Splice(existing, facts, d, blocks);
  }

  /** What `Update` makes of one block. */
  lemma JudgeByParts(p: Piece, facts: Facts, known: map<string, ManagedBlock>)
    requires forall name :: name in known <==> FindIn(BLOCKS, name).Some?
    requires forall name <- known :: Some(known[name]) == FindIn(BLOCKS, name)
    ensures Judge(p, facts) == Unknown <==> p.name !in known
    ensures p.name in known ==>
      var renewed := FreshBody(known[p.name], facts, EndsCrlf(p.begin));
      && Refresh(p, facts).body == renewed
      && (Judge(p, facts) == Unchanged <==> p.body == renewed)
  {
    hide FreshBody, FindIn;
    assert p.name in known ==> Some(known[p.name]) == FindIn(BLOCKS, p.name);
  }

  /** The loop of `Update` over the blocks of an accepted document. */
  method Splice(existing: string, facts: Facts, ghost d: Doc, blocks: seq<Block>) returns (result: Outcome)
    requires existing == Flatten(d) && blocks == BlocksOf(d.pieces, 0)
    ensures result.Updated?
    ensures result.content == Flatten(Doc(RefreshAll(d.pieces, facts), d.tail))
    ensures result.changed == Judged(d.pieces, facts, Changed)
    ensures result.current == Judged(d.pieces, facts, Unchanged)
    ensures result.unknown == Judged(d.pieces, facts, Unknown)
    ensures result.missing == MissingFrom(BLOCKS, Names(d.pieces))
  {
    hide LoopState, BlocksOf, Refresh, Judge, FlattenPieces, FlattenPiece, FindIn, BlockBody, Crlf, Flatten, MissingFrom, RefreshAll;
    var known := KnownBlocks();
    var b := "";
    var cursor: nat := 0;
    var changed: seq<string>, current: seq<string>, unknown: seq<string> := [], [], [];
    var present: set<string> := {};
    BlocksLength(d.pieces, 0);
    SplicingStarts(existing, d, facts);
    for k := 0 to |blocks|
      invariant |blocks| == |d.pieces|
      invariant LoopState(existing, d, facts, k, b, cursor, changed, current, unknown, present)
    {
      var block := blocks[k];
      BlockIndexed(d.pieces, 0, k);
      NextLoopState(existing, d, facts, k, b, cursor, changed, current, unknown, present);
      JudgeByParts(d.pieces[k], facts, known);
      present := present + {block.name};
      if block.name !in known {
        unknown := unknown + [block.name];
        continue;
      }
      var renewed := BlockBody(known[block.name], facts);
      if block.crlf {
        renewed := Crlf(renewed);
      }
      if existing[block.bodyStart..block.bodyEnd] == renewed {
        current := current + [block.name];
        continue;
      }
      b := b + existing[cursor..block.bodyStart] + renewed;
      cursor := block.bodyEnd;
      changed := changed + [block.name];
    }
    SplicingEnds(existing, d, facts, b, cursor, changed, current, unknown, present);
    var missing := MissingNames(present, Names(d.pieces));
    result := Updated(b + existing[cursor..], changed, current, unknown, missing);
  }
}
