/** `diffHunks` and `writeHunk`: which part of a script is shown, and the header arithmetic,
    checked against a strict patch applier. */
module DiffHunks {
  import opened UnifiedDiff
  import opened Wrappers

  const CONTEXT := 3

  datatype Range = Range(start: int, end: int)

  ghost predicate NearChange(ops: seq<Op>, p: int) {
    exists c :: 0 <= c < |ops| && ops[c].kind != Keep && p - CONTEXT <= c <= p + CONTEXT
  }

  ghost predicate Covered(hunks: seq<Range>, p: int) {
    exists k :: 0 <= k < |hunks| && hunks[k].start <= p < hunks[k].end
  }

  /** In order, nonempty, within `n`, and separated by at least one position. */
  ghost predicate Separated(hunks: seq<Range>, n: int) {
    && (forall k :: 0 <= k < |hunks| ==> 0 <= hunks[k].start < hunks[k].end <= n)
    && forall k, l :: 0 <= k < l < |hunks| ==> hunks[k].end < hunks[l].start
  }

  /** A position lies in a hunk exactly when it is within three positions of a change. */
  ghost predicate HunksExact(ops: seq<Op>, hunks: seq<Range>) {
    && Separated(hunks, |ops|)
    && forall p :: 0 <= p < |ops| ==> (Covered(hunks, p) <==> NearChange(ops, p))
  }

  lemma ExtendLast(hunks: seq<Range>, end: int, n: int, start: int)
    requires Separated(hunks, n) && hunks != []
    requires hunks[|hunks| - 1].start <= start <= hunks[|hunks| - 1].end <= end <= n
    ensures var hunks' := hunks[|hunks| - 1 := Range(hunks[|hunks| - 1].start, end)];
      Separated(hunks', n) && forall p :: Covered(hunks', p) <==> Covered(hunks, p) || start <= p < end
  {
    var last := |hunks| - 1;
    var hunks' := hunks[last := Range(hunks[last].start, end)];
    forall p ensures Covered(hunks', p) <==> Covered(hunks, p) || start <= p < end {
      if Covered(hunks, p) {
        var k :| 0 <= k < |hunks| && hunks[k].start <= p < hunks[k].end;
        assert hunks'[k].start <= p < hunks'[k].end;
      } else if start <= p < end {
        assert hunks'[last].start <= p < hunks'[last].end;
      }
    }
  }

  lemma AddHunk(hunks: seq<Range>, r: Range, n: int)
    requires Separated(hunks, n) && 0 <= r.start < r.end <= n
    requires hunks == [] || hunks[|hunks| - 1].end < r.start
    ensures Separated(hunks + [r], n)
    ensures forall p :: Covered(hunks + [r], p) <==> Covered(hunks, p) || r.start <= p < r.end
  {
    var hunks' := hunks + [r];
    forall p ensures Covered(hunks', p) <==> Covered(hunks, p) || r.start <= p < r.end {
      if Covered(hunks, p) {
        var k :| 0 <= k < |hunks| && hunks[k].start <= p < hunks[k].end;
        assert hunks'[k].start <= p < hunks'[k].end;
      }
      if r.start <= p < r.end {
        assert hunks'[|hunks|].start <= p < hunks'[|hunks|].end;
      }
    }
    forall k, l | 0 <= k < l < |hunks'| ensures hunks'[k].end < hunks'[l].start {
      assert k < |hunks| - 1 ==> hunks[k].end < hunks[|hunks| - 1].start;
    }
  }

  /** `NearChange` counting only the changes below `n`. */
  ghost predicate NearChangeBelow(ops: seq<Op>, p: int, n: int)
    requires n <= |ops|
  {
    exists c :: 0 <= c < n && ops[c].kind != Keep && p - CONTEXT <= c <= p + CONTEXT
  }

  lemma NearOneMore(ops: seq<Op>, p: int, n: nat)
    requires n < |ops|
    ensures NearChangeBelow(ops, p, n + 1)
       <==> NearChangeBelow(ops, p, n) || (ops[n].kind != Keep && p - CONTEXT <= n <= p + CONTEXT)
  {
    if NearChangeBelow(ops, p, n + 1) {
      var c :| 0 <= c < n + 1 && ops[c].kind != Keep && p - CONTEXT <= c <= p + CONTEXT;
      assert c == n || NearChangeBelow(ops, p, n);
    }
  }

  /** `diffHunks`. */
  method FindHunks(ops: seq<Op>) returns (hunks: seq<Range>)
    ensures HunksExact(ops, hunks)
  {
    hunks := [];
    for idx := 0 to |ops|
      invariant Separated(hunks, |ops|)
      invariant hunks != [] ==> hunks[|hunks| - 1].start <= idx && hunks[|hunks| - 1].start <= Max(0, idx - 1 - CONTEXT)
      invariant hunks != [] ==> hunks[|hunks| - 1].end <= Min(|ops|, idx + CONTEXT)
      invariant forall p :: 0 <= p < |ops| ==> (Covered(hunks, p) <==> NearChangeBelow(ops, p, idx))
    {
      forall p | 0 <= p < |ops|
        ensures NearChangeBelow(ops, p, idx + 1)
           <==> NearChangeBelow(ops, p, idx) || (ops[idx].kind != Keep && p - CONTEXT <= idx <= p + CONTEXT)
      {
        NearOneMore(ops, p, idx);
      }
      if ops[idx].kind == Keep {
        continue;
      }
      var start := Max(0, idx - CONTEXT);
      var end := Min(|ops|, idx + CONTEXT + 1);
      var n := |hunks|;
      if n > 0 && start <= hunks[n - 1].end {
        ExtendLast(hunks, Max(hunks[n - 1].end, end), |ops|, start);
        hunks := hunks[n - 1 := Range(hunks[n - 1].start, Max(hunks[n - 1].end, end))];
        continue;
      }
      AddHunk(hunks, Range(start, end), |ops|);
      hunks := hunks + [Range(start, end)];
    }
    assert forall p :: NearChangeBelow(ops, p, |ops|) <==> NearChange(ops, p);
  }

  lemma SameFirst(h: seq<Range>, g: seq<Range>, n: int)
    requires Separated(h, n) && Separated(g, n) && h != []
    requires forall p :: 0 <= p < n ==> (Covered(h, p) <==> Covered(g, p))
    ensures g != [] && g[0].start <= h[0].start && (g[0].start == h[0].start ==> h[0].end <= g[0].end)
  {
    assert Covered(h, h[0].start);
    var k :| 0 <= k < |g| && g[k].start <= h[0].start < g[k].end;
    GapNotCovered(g, n, 1, g[0].end);
    assert h[0].start <= g[0].end < h[0].end ==> Covered(h, g[0].end);
  }

  /** Nothing between the end of range `k - 1` and the start of range `k` is covered. */
  lemma GapNotCovered(ranges: seq<Range>, n: int, k: nat, p: int)
    requires Separated(ranges, n) && k <= |ranges|
    requires k > 0 ==> ranges[k - 1].end <= p
    requires k < |ranges| ==> p < ranges[k].start || (k > 0 && p == ranges[k - 1].end)
    ensures !Covered(ranges, p)
  {
    forall l | 0 <= l < |ranges| ensures !(ranges[l].start <= p < ranges[l].end) {
      if l < k - 1 {
        assert ranges[l].end < ranges[k - 1].start;
      } else if l > k {
        assert ranges[k].end < ranges[l].start;
      }
    }
  }

  /** Exactness determines the hunks. */
  lemma {:induction false} HunksUnique(h: seq<Range>, g: seq<Range>, n: int)
    requires Separated(h, n) && Separated(g, n)
    requires forall p :: 0 <= p < n ==> (Covered(h, p) <==> Covered(g, p))
    ensures h == g
  {
    if h == [] {
      if g != [] {
        SameFirst(g, h, n);
      }
    } else {
      SameFirst(h, g, n);
      SameFirst(g, h, n);
      assert h[0] == g[0];
      forall p | 0 <= p < n ensures Covered(h[1..], p) <==> Covered(g[1..], p) {
        RestCovers(h, n, p);
        RestCovers(g, n, p);
      }
      HunksUnique(h[1..], g[1..], n);
      assert h == [h[0]] + h[1..] && g == [g[0]] + g[1..];
    }
  }

  lemma RestCovers(h: seq<Range>, n: int, p: int)
    requires Separated(h, n) && h != []
    ensures Covered(h[1..], p) <==> Covered(h, p) && !(h[0].start <= p < h[0].end)
  {
    if Covered(h[1..], p) {
      var k :| 0 <= k < |h[1..]| && h[1..][k].start <= p < h[1..][k].end;
      assert h[k + 1].start <= p < h[k + 1].end;
    }
    if Covered(h, p) && !(h[0].start <= p < h[0].end) {
      var k :| 0 <= k < |h| && h[k].start <= p < h[k].end;
      assert h[1..][k - 1].start <= p < h[1..][k - 1].end;
    }
  }

  // ----- headers and bodies -----

  /** One side of a hunk header, as printed: an empty side names the line before it. */
  datatype Span = Span(start: int, count: nat)

  datatype Hunk = Hunk(minus: Span, plus: Span, body: seq<Op>)

  /** `hunkSpan`. */
  function HunkSpan(start: int, count: nat): Span {
    if count == 0 then Span(start - 1, 0) else Span(start, count)
  }

  /** The hunk that shows `ops[r.start..r.end]`. */
  ghost function HunkOf(ops: seq<Op>, r: Range): Hunk
    requires 0 <= r.start <= r.end <= |ops|
  {
    var before, body := ops[..r.start], ops[r.start..r.end];
    Hunk(HunkSpan(|OldSide(before)| + 1, |OldSide(body)|), HunkSpan(|NewSide(before)| + 1, |NewSide(body)|), body)
  }

  lemma {:induction false} SidesConcat(x: seq<Op>, y: seq<Op>)
    ensures OldSide(x + y) == OldSide(x) + OldSide(y)
    ensures NewSide(x + y) == NewSide(x) + NewSide(y)
  {
    if x == [] {
      assert x + y == y;
    } else {
      SidesConcat(x[1..], y);
      SidesUnfold(x, y);
      SidesUnfold(x, []);
      assert x + [] == x && x[1..] + [] == x[1..];
      hide *;
      Regroup(OldLine(x[0]), OldSide(x[1..]), OldSide(y));
      Regroup(NewLine(x[0]), NewSide(x[1..]), NewSide(y));
    }
  }

  function OldLine(op: Op): seq<string> {
    if op.kind != Insert then [op.text] else []
  }

  function NewLine(op: Op): seq<string> {
    if op.kind != Delete then [op.text] else []
  }

  lemma SidesUnfold(x: seq<Op>, y: seq<Op>)
    requires x != []
    ensures OldSide(x + y) == OldLine(x[0]) + OldSide(x[1..] + y)
    ensures NewSide(x + y) == NewLine(x[0]) + NewSide(x[1..] + y)
  {
    assert (x + y)[1..] == x[1..] + y;
  }

  /** The counting loops of `writeHunk`. */
  method CountSides(ops: seq<Op>) returns (minus: nat, plus: nat)
    ensures minus == |OldSide(ops)| && plus == |NewSide(ops)|
  {
    minus, plus := 0, 0;
    for n := 0 to |ops|
      invariant minus == |OldSide(ops[..n])| && plus == |NewSide(ops[..n])|
    {
      assert ops[..n + 1] == ops[..n] + [ops[n]];
      SidesConcat(ops[..n], [ops[n]]);
      if ops[n].kind != Insert {
        minus := minus + 1;
      }
      if ops[n].kind != Delete {
        plus := plus + 1;
      }
    }
    assert ops[..|ops|] == ops;
  }

  /** `writeHunk`, up to its rendering as text. */
  method WriteHunk(ops: seq<Op>, r: Range) returns (hunk: Hunk)
    requires 0 <= r.start <= r.end <= |ops|
    ensures hunk == HunkOf(ops, r)
  {
    var oldBefore, newBefore := CountSides(ops[..r.start]);
    var oldCount, newCount := CountSides(ops[r.start..r.end]);
    hunk := Hunk(HunkSpan(oldBefore + 1, oldCount), HunkSpan(newBefore + 1, newCount), ops[r.start..r.end]);
  }

  ghost function HunksOf(ops: seq<Op>, ranges: seq<Range>): seq<Hunk>
    requires Separated(ranges, |ops|)
  {
    seq(|ranges|, k requires 0 <= k < |ranges| => HunkOf(ops, ranges[k]))
  }

  /** The hunks of a diff from `a` to `b`. */
  method Diff(a: seq<string>, b: seq<string>) returns (hunks: seq<Hunk>, ghost ranges: seq<Range>)
    ensures HunksExact(Script(a, b, 0, 0), ranges)
    ensures hunks == HunksOf(Script(a, b, 0, 0), ranges)
    ensures Apply(a, hunks) == Some(b)
    ensures hunks == [] <==> a == b
  {
    hide Apply;
    var ops := DiffLines(a, b);
    var found := FindHunks(ops);
    ranges := found;
    hunks := [];
    for k := 0 to |found|
      invariant |hunks| == k && forall l :: 0 <= l < k ==> hunks[l] == HunkOf(ops, found[l])
    {
      var hunk := WriteHunk(ops, found[k]);
      hunks := hunks + [hunk];
    }
    PatchRoundTrip(a, b, ranges);
    NoHunksIff(a, b, ranges);
  }

  // ----- a patch applier -----

  /** Where a header side says its hunk begins, counting lines from zero. */
  function Position(s: Span): int {
    if s.count == 0 then s.start else s.start - 1
  }

  /** Apply `hunks` to the old lines from `cursor` on, `produced` new lines having been written.
      Only headers and bodies are consulted, and every claim they make is checked: counts against
      bodies, both start lines, and the old lines themselves. */
  function ApplyFrom(lines: seq<string>, hunks: seq<Hunk>, cursor: nat, produced: nat): Option<seq<string>>
    requires cursor <= |lines|
  {
    if hunks == [] then Some(lines[cursor..])
    else
      var h := hunks[0];
      var at := Position(h.minus);
      if || at < cursor || at + h.minus.count > |lines|
         || lines[at..at + h.minus.count] != OldSide(h.body)
         || |NewSide(h.body)| != h.plus.count
         || Position(h.plus) != produced + at - cursor
      then None
      else
        match ApplyFrom(lines, hunks[1..], at + h.minus.count, produced + at - cursor + h.plus.count)
        case None => None
        case Some(rest) => Some(lines[cursor..at] + NewSide(h.body) + rest)
  }

  function Apply(lines: seq<string>, hunks: seq<Hunk>): Option<seq<string>> {
    ApplyFrom(lines, hunks, 0, 0)
  }

  lemma {:induction false} UnchangedSides(ops: seq<Op>)
    requires forall p :: 0 <= p < |ops| ==> ops[p].kind == Keep
    ensures OldSide(ops) == NewSide(ops)
  {
    if ops != [] {
      UnchangedSides(ops[1..]);
    }
  }

  /** Every changed op lies in some range. */
  ghost predicate ChangesCovered(ops: seq<Op>, ranges: seq<Range>) {
    forall p :: 0 <= p < |ops| && ops[p].kind != Keep ==> Covered(ranges, p)
  }

  ghost function EndBefore(ranges: seq<Range>, k: nat): int
    requires k <= |ranges|
  {
    if k == 0 then 0 else ranges[k - 1].end
  }

  lemma GapUnchanged(ops: seq<Op>, ranges: seq<Range>, k: nat, from: int, to: int)
    requires Separated(ranges, |ops|) && ChangesCovered(ops, ranges) && k <= |ranges|
    requires EndBefore(ranges, k) == from <= to <= |ops|
    requires k < |ranges| ==> to <= ranges[k].start
    ensures OldSide(ops[from..to]) == NewSide(ops[from..to])
  {
    forall p | from <= p < to ensures ops[p].kind == Keep {
      GapNotCovered(ranges, |ops|, k, p);
    }
    UnchangedSides(ops[from..to]);
  }

  lemma RestoreHunk(ops: seq<Op>, hunks: seq<Hunk>, done: int, r: Range)
    requires 0 <= done <= r.start <= r.end <= |ops| && OldSide(ops[done..r.start]) == NewSide(ops[done..r.start])
    requires hunks != [] && hunks[0] == HunkOf(ops, r)
    requires |OldSide(ops[..r.end])| <= |OldSide(ops)|
    requires ApplyFrom(OldSide(ops), hunks[1..], |OldSide(ops[..r.end])|, |NewSide(ops[..r.end])|) == Some(NewSide(ops[r.end..]))
    ensures |OldSide(ops[..done])| <= |OldSide(ops)|
    ensures ApplyFrom(OldSide(ops), hunks, |OldSide(ops[..done])|, |NewSide(ops[..done])|) == Some(NewSide(ops[done..]))
  {
    var x, gap, body, rest := ops[..done], ops[done..r.start], ops[r.start..r.end], ops[r.end..];
    assert ops[..r.start] == x + gap && ops[..r.end] == x + gap + body;
    assert ops[done..] == gap + (body + rest) && ops == x + gap + body + rest;
    HunkApplies(x, gap, body, rest, hunks);
  }

  lemma ApplyRestores(ops: seq<Op>, ranges: seq<Range>, k: nat)
    requires Separated(ranges, |ops|) && ChangesCovered(ops, ranges) && k <= |ranges|
    ensures var done := EndBefore(ranges, k);
      && |OldSide(ops[..done])| <= |OldSide(ops)|
      && ApplyFrom(OldSide(ops), HunksOf(ops, ranges)[k..], |OldSide(ops[..done])|, |NewSide(ops[..done])|)
         == Some(NewSide(ops[done..]))
    decreases |ranges| - k
  {
    var done := EndBefore(ranges, k);
    if k == |ranges| {
      GapUnchanged(ops, ranges, k, done, |ops|);
      Splits(ops, done);
      assert ops[done..|ops|] == ops[done..];
    } else {
      assert k > 0 ==> ranges[k - 1].end < ranges[k].start;
      GapUnchanged(ops, ranges, k, done, ranges[k].start);
      ApplyRestores(ops, ranges, k + 1);
      assert HunksOf(ops, ranges)[k..][1..] == HunksOf(ops, ranges)[k + 1..];
      RestoreHunk(ops, HunksOf(ops, ranges)[k..], done, ranges[k]);
    }
  }

  lemma Splits(ops: seq<Op>, at: nat)
    requires at <= |ops|
    ensures OldSide(ops) == OldSide(ops[..at]) + OldSide(ops[at..])
    ensures NewSide(ops) == NewSide(ops[..at]) + NewSide(ops[at..])
  {
    assert ops == ops[..at] + ops[at..];
    SidesConcat(ops[..at], ops[at..]);
  }

  lemma Middle(a: seq<string>, b: seq<string>, c: seq<string>, d: seq<string>)
    ensures (a + b + c + d)[|a|..|a| + |b|] == b
    ensures (a + b + c + d)[|a| + |b|..|a| + |b| + |c|] == c
  {
  }

  lemma Regroup(a: seq<string>, b: seq<string>, c: seq<string>)
    ensures a + (b + c) == a + b + c
  {
  }

  lemma NewOfParts(gap: seq<Op>, body: seq<Op>, rest: seq<Op>)
    ensures NewSide(gap + (body + rest)) == NewSide(gap) + NewSide(body) + NewSide(rest)
  {
    SidesConcat(body, rest);
    SidesConcat(gap, body + rest);
    Regroup(NewSide(gap), NewSide(body), NewSide(rest));
  }

  lemma SidesOfParts(x: seq<Op>, gap: seq<Op>, body: seq<Op>, rest: seq<Op>)
    ensures OldSide(x + gap) == OldSide(x) + OldSide(gap) && NewSide(x + gap) == NewSide(x) + NewSide(gap)
    ensures OldSide(x + gap + body) == OldSide(x) + OldSide(gap) + OldSide(body)
    ensures NewSide(x + gap + body) == NewSide(x) + NewSide(gap) + NewSide(body)
    ensures OldSide(x + gap + body + rest) == OldSide(x) + OldSide(gap) + OldSide(body) + OldSide(rest)
  {
    SidesConcat(x, gap);
    SidesConcat(x + gap, body);
    SidesConcat(x + gap + body, rest);
  }

  /** `ApplyFrom` accepts a hunk whose claims hold. */
  lemma ApplyStep(lines: seq<string>, hunks: seq<Hunk>, cursor: nat, produced: nat, gap: seq<string>, rest: seq<string>)
    requires hunks != []
    requires var h := hunks[0];
      var at := Position(h.minus);
      && cursor <= at && at + h.minus.count <= |lines|
      && lines[at..at + h.minus.count] == OldSide(h.body)
      && |NewSide(h.body)| == h.plus.count
      && at - cursor == |gap| && lines[cursor..at] == gap
      && Position(h.plus) == produced + |gap|
      && ApplyFrom(lines, hunks[1..], at + h.minus.count, produced + |gap| + h.plus.count) == Some(rest)
    ensures ApplyFrom(lines, hunks, cursor, produced) == Some(gap + NewSide(hunks[0].body) + rest)
  {
  }

  /** The empty-side rule leaves the position. */
  lemma SpanPosition(at: nat, count: nat)
    ensures Position(HunkSpan(at + 1, count)) == at && HunkSpan(at + 1, count).count == count
  {
  }

  /** The same in terms of the parts of the old lines before, in and after the hunk. */
  lemma ApplyParts(before: seq<string>, gap: seq<string>, after: seq<string>, produced: nat, hunks: seq<Hunk>, rest: seq<string>)
    requires hunks != []
    requires var h := hunks[0];
      && h.minus == HunkSpan(|before| + |gap| + 1, |OldSide(h.body)|)
      && h.plus == HunkSpan(produced + |gap| + 1, |NewSide(h.body)|)
      && ApplyFrom(before + gap + OldSide(h.body) + after, hunks[1..], |before| + |gap| + |OldSide(h.body)|,
                   produced + |gap| + |NewSide(h.body)|) == Some(rest)
    ensures ApplyFrom(before + gap + OldSide(hunks[0].body) + after, hunks, |before|, produced)
         == Some(gap + NewSide(hunks[0].body) + rest)
  {
    var olds, news := OldSide(hunks[0].body), NewSide(hunks[0].body);
    SpanPosition(|before| + |gap|, |olds|);
    SpanPosition(produced + |gap|, |news|);
    Middle(before, gap, olds, after);
    hide *;
    ApplyStep(before + gap + olds + after, hunks, |before|, produced, gap, rest);
  }

  lemma HunkApplies(x: seq<Op>, gap: seq<Op>, body: seq<Op>, rest: seq<Op>, hunks: seq<Hunk>)
    requires hunks != [] && OldSide(gap) == NewSide(gap)
    requires hunks[0] == Hunk(HunkSpan(|OldSide(x + gap)| + 1, |OldSide(body)|),
                              HunkSpan(|NewSide(x + gap)| + 1, |NewSide(body)|), body)
    requires |OldSide(x + gap + body)| <= |OldSide(x + gap + body + rest)|
    requires ApplyFrom(OldSide(x + gap + body + rest), hunks[1..], |OldSide(x + gap + body)|, |NewSide(x + gap + body)|)
          == Some(NewSide(rest))
    ensures |OldSide(x)| <= |OldSide(x + gap + body + rest)|
    ensures ApplyFrom(OldSide(x + gap + body + rest), hunks, |OldSide(x)|, |NewSide(x)|) == Some(NewSide(gap + (body + rest)))
  {
    hide *;
    SidesOfParts(x, gap, body, rest);
    NewOfParts(gap, body, rest);
    ApplyParts(OldSide(x), OldSide(gap), OldSide(rest), |NewSide(x)|, hunks, NewSide(rest));
  }

  /** Applying the emitted hunks to the old lines yields exactly the new lines. */
  lemma PatchRoundTrip(a: seq<string>, b: seq<string>, ranges: seq<Range>)
    requires HunksExact(Script(a, b, 0, 0), ranges)
    ensures Apply(a, HunksOf(Script(a, b, 0, 0), ranges)) == Some(b)
  {
    var ops := Script(a, b, 0, 0);
    assert a[0..] == a && b[0..] == b;
    ScriptRelates(a, b, 0, 0);
    forall p | 0 <= p < |ops| && ops[p].kind != Keep ensures Covered(ranges, p) {
      assert NearChange(ops, p);
    }
    ApplyRestores(ops, ranges, 0);
    assert ops[..0] == [] && ops[0..] == ops;
    assert HunksOf(ops, ranges)[0..] == HunksOf(ops, ranges);
  }

  // ----- reversing a patch -----

  function Flip(ops: seq<Op>): (flipped: seq<Op>)
    ensures |flipped| == |ops|
  {
    seq(|ops|, i requires 0 <= i < |ops| => FlipOp(ops[i]))
  }

  function FlipOp(op: Op): Op {
    match op.kind
    case Keep => op
    case Delete => Op(Insert, op.text)
    case Insert => Op(Delete, op.text)
  }

  /** The hunk with its two sides exchanged. */
  function Reversed(h: Hunk): Hunk {
    Hunk(h.plus, h.minus, Flip(h.body))
  }

  function ReversePatch(hunks: seq<Hunk>): seq<Hunk> {
    seq(|hunks|, k requires 0 <= k < |hunks| => Reversed(hunks[k]))
  }

  lemma {:induction false} FlipSwapsSides(ops: seq<Op>)
    ensures OldSide(Flip(ops)) == NewSide(ops) && NewSide(Flip(ops)) == OldSide(ops)
  {
    if ops != [] {
      assert Flip(ops)[1..] == Flip(ops[1..]);
      FlipSwapsSides(ops[1..]);
    }
  }

  lemma HunkOfFlipped(ops: seq<Op>, r: Range)
    requires 0 <= r.start <= r.end <= |ops|
    ensures HunkOf(Flip(ops), r) == Reversed(HunkOf(ops, r))
  {
    assert Flip(ops)[..r.start] == Flip(ops[..r.start]);
    assert Flip(ops)[r.start..r.end] == Flip(ops[r.start..r.end]);
    FlipSwapsSides(ops[..r.start]);
    FlipSwapsSides(ops[r.start..r.end]);
  }

  /** Applying the reversed hunks to the new lines yields the old ones. */
  lemma ReverseRoundTrip(a: seq<string>, b: seq<string>, ranges: seq<Range>)
    requires HunksExact(Script(a, b, 0, 0), ranges)
    ensures Apply(b, ReversePatch(HunksOf(Script(a, b, 0, 0), ranges))) == Some(a)
  {
    var ops := Script(a, b, 0, 0);
    assert a[0..] == a && b[0..] == b;
    ScriptRelates(a, b, 0, 0);
    FlipSwapsSides(ops);
    forall p | 0 <= p < |ops| && Flip(ops)[p].kind != Keep ensures Covered(ranges, p) {
      assert NearChange(ops, p);
    }
    forall k | 0 <= k < |ranges| ensures HunksOf(Flip(ops), ranges)[k] == ReversePatch(HunksOf(ops, ranges))[k] {
      HunkOfFlipped(ops, ranges[k]);
    }
    assert HunksOf(Flip(ops), ranges) == ReversePatch(HunksOf(ops, ranges));
    ApplyRestores(Flip(ops), ranges, 0);
    assert Flip(ops)[..0] == [] && Flip(ops)[0..] == Flip(ops);
    assert HunksOf(Flip(ops), ranges)[0..] == HunksOf(Flip(ops), ranges);
  }

  /** There is nothing to show exactly when the two line lists are equal. */
  lemma NoHunksIff(a: seq<string>, b: seq<string>, ranges: seq<Range>)
    requires HunksExact(Script(a, b, 0, 0), ranges)
    ensures ranges == [] <==> a == b
  {
    var ops := Script(a, b, 0, 0);
    if ranges == [] {
      PatchRoundTrip(a, b, ranges);
    } else {
      assert Covered(ranges, ranges[0].start);
      assert NearChange(ops, ranges[0].start);
      if a == b {
        AllKept(a);
        ScriptIsMinimal(a, b, Kept(a));
        NoChanges(ops);
      }
    }
  }

  function Kept(a: seq<string>): seq<Op> {
    if a == [] then [] else [Op(Keep, a[0])] + Kept(a[1..])
  }

  lemma {:induction false} AllKept(a: seq<string>)
    ensures Relates(Kept(a), a, a) && ChangeCount(Kept(a)) == 0
  {
    if a != [] {
      AllKept(a[1..]);
    }
  }

  lemma {:induction false} NoChanges(ops: seq<Op>)
    requires ChangeCount(ops) == 0
    ensures forall p :: 0 <= p < |ops| ==> ops[p].kind == Keep
  {
    if ops != [] {
      NoChanges(ops[1..]);
      assert forall p :: 1 <= p < |ops| ==> ops[p] == ops[1..][p - 1];
    }
  }
}
