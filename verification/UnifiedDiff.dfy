/** `unified_diff.go`: the longest-common-subsequence edit script and its grouping into hunks. */
module UnifiedDiff {

  datatype Kind = Keep | Delete | Insert

  datatype Op = Op(kind: Kind, text: string)

  /** The old and new texts that an edit script relates. */
  function OldSide(ops: seq<Op>): seq<string> {
    if ops == [] then []
    else (if ops[0].kind != Insert then [ops[0].text] else []) + OldSide(ops[1..])
  }

  function NewSide(ops: seq<Op>): seq<string> {
    if ops == [] then []
    else (if ops[0].kind != Delete then [ops[0].text] else []) + NewSide(ops[1..])
  }

  function KeptLines(ops: seq<Op>): seq<string> {
    if ops == [] then []
    else (if ops[0].kind == Keep then [ops[0].text] else []) + KeptLines(ops[1..])
  }

  ghost predicate Relates(ops: seq<Op>, a: seq<string>, b: seq<string>) {
    OldSide(ops) == a && NewSide(ops) == b
  }

  function Max(x: int, y: int): int {
    if x > y then x else y
  }

  function Min(x: int, y: int): int {
    if x < y then x else y
  }

  /** The recurrence that the table satisfies. */
  function Lcs(a: seq<string>, b: seq<string>, i: nat, j: nat): nat
    requires i <= |a| && j <= |b|
    decreases |a| - i + |b| - j
  {
    if i == |a| || j == |b| then 0
    else if a[i] == b[j] then Lcs(a, b, i + 1, j + 1) + 1
    else Max(Lcs(a, b, i + 1, j), Lcs(a, b, i, j + 1))
  }

  ghost predicate RowFilled(a: seq<string>, b: seq<string>, lcs: array2<int>, i: nat, from: nat)
    requires i <= |a| && lcs.Length0 == |a| + 1 && lcs.Length1 == |b| + 1
    reads lcs
  {
    forall j :: from <= j <= |b| ==> lcs[i, j] == Lcs(a, b, i, j)
  }

  /** The inner loop: row `i` from row `i + 1`. */
  method FillRow(a: seq<string>, b: seq<string>, lcs: array2<int>, i: nat)
    requires i < |a| && lcs.Length0 == |a| + 1 && lcs.Length1 == |b| + 1
    requires RowFilled(a, b, lcs, i + 1, 0) && lcs[i, |b|] == 0
    modifies lcs
    ensures RowFilled(a, b, lcs, i, 0)
    ensures forall p, q :: 0 <= p <= |a| && p != i && 0 <= q <= |b| ==> lcs[p, q] == old(lcs[p, q])
  {
    var j := |b|;
    while j > 0
      invariant 0 <= j <= |b|
      invariant RowFilled(a, b, lcs, i + 1, 0) && RowFilled(a, b, lcs, i, j)
      invariant forall p, q :: 0 <= p <= |a| && p != i && 0 <= q <= |b| ==> lcs[p, q] == old(lcs[p, q])
    {
      j := j - 1;
      if a[i] == b[j] {
        lcs[i, j] := lcs[i + 1, j + 1] + 1;
      } else {
        lcs[i, j] := Max(lcs[i + 1, j], lcs[i, j + 1]);
      }
    }
  }

  method FillTable(a: seq<string>, b: seq<string>) returns (lcs: array2<int>)
    ensures fresh(lcs) && lcs.Length0 == |a| + 1 && lcs.Length1 == |b| + 1
    ensures forall i :: 0 <= i <= |a| ==> RowFilled(a, b, lcs, i, 0)
  {
    lcs := new int[|a| + 1, |b| + 1]((_, _) => 0);
    var i := |a|;
    while i > 0
      invariant 0 <= i <= |a|
      invariant forall p :: i <= p <= |a| ==> RowFilled(a, b, lcs, p, 0)
      invariant forall p :: 0 <= p < i ==> lcs[p, |b|] == 0
    {
      i := i - 1;
      label before:
      FillRow(a, b, lcs, i);
      forall p | i < p <= |a| ensures RowFilled(a, b, lcs, p, 0) {
        assert old@before(RowFilled(a, b, lcs, p, 0));
      }
    }
  }

  /** The walk through the table from `(i, j)`; ties delete before they insert. */
  function Script(a: seq<string>, b: seq<string>, i: nat, j: nat): seq<Op>
    requires i <= |a| && j <= |b|
    decreases |a| - i + |b| - j
  {
    if i < |a| && j < |b| then
      if a[i] == b[j] then [Op(Keep, a[i])] + Script(a, b, i + 1, j + 1)
      else if Lcs(a, b, i + 1, j) >= Lcs(a, b, i, j + 1) then [Op(Delete, a[i])] + Script(a, b, i + 1, j)
      else [Op(Insert, b[j])] + Script(a, b, i, j + 1)
    else if i < |a| then [Op(Delete, a[i])] + Script(a, b, i + 1, j)
    else if j < |b| then [Op(Insert, b[j])] + Script(a, b, i, j + 1)
    else []
  }

  lemma Appended(ops: seq<Op>, op: Op, rest: seq<Op>)
    ensures (ops + [op]) + rest == ops + ([op] + rest)
  {
  }

  /** The walk while both texts have lines left. */
  method WalkTable(a: seq<string>, b: seq<string>, lcs: array2<int>) returns (ops: seq<Op>, i: nat, j: nat)
    requires lcs.Length0 == |a| + 1 && lcs.Length1 == |b| + 1
    requires forall i :: 0 <= i <= |a| ==> RowFilled(a, b, lcs, i, 0)
    ensures i <= |a| && j <= |b| && (i == |a| || j == |b|)
    ensures ops + Script(a, b, i, j) == Script(a, b, 0, 0)
  {
    ops := [];
    i, j := 0, 0;
    while i < |a| && j < |b|
      invariant i <= |a| && j <= |b|
      invariant ops + Script(a, b, i, j) == Script(a, b, 0, 0)
      decreases |a| - i + |b| - j
    {
      assert RowFilled(a, b, lcs, i + 1, 0) && RowFilled(a, b, lcs, i, 0);
      if a[i] == b[j] {
        Appended(ops, Op(Keep, a[i]), Script(a, b, i + 1, j + 1));
        ops := ops + [Op(Keep, a[i])];
        i, j := i + 1, j + 1;
      } else if lcs[i + 1, j] >= lcs[i, j + 1] {
        Appended(ops, Op(Delete, a[i]), Script(a, b, i + 1, j));
        ops := ops + [Op(Delete, a[i])];
        i := i + 1;
      } else {
        Appended(ops, Op(Insert, b[j]), Script(a, b, i, j + 1));
        ops := ops + [Op(Insert, b[j])];
        j := j + 1;
      }
    }
  }

  /** `diffLines`. */
  method DiffLines(a: seq<string>, b: seq<string>) returns (ops: seq<Op>)
    ensures ops == Script(a, b, 0, 0)
  {
    var lcs := FillTable(a, b);
    var i, j;
    ops, i, j := WalkTable(a, b, lcs);
    while i < |a|
      invariant i <= |a| && j <= |b| && (i < |a| ==> j == |b|)
      invariant ops + Script(a, b, i, j) == Script(a, b, 0, 0)
    {
      Appended(ops, Op(Delete, a[i]), Script(a, b, i + 1, j));
      ops := ops + [Op(Delete, a[i])];
      i := i + 1;
    }
    while j < |b|
      invariant i == |a| && j <= |b|
      invariant ops + Script(a, b, i, j) == Script(a, b, 0, 0)
    {
      Appended(ops, Op(Insert, b[j]), Script(a, b, i, j + 1));
      ops := ops + [Op(Insert, b[j])];
      j := j + 1;
    }
  }

  // ----- the script is a shortest one -----

  lemma {:induction false} ScriptRelates(a: seq<string>, b: seq<string>, i: nat, j: nat)
    requires i <= |a| && j <= |b|
    ensures Relates(Script(a, b, i, j), a[i..], b[j..])
    ensures |KeptLines(Script(a, b, i, j))| == Lcs(a, b, i, j)
    decreases |a| - i + |b| - j
  {
    hide Relates, KeptLines;
    SuffixCons(a, i);
    SuffixCons(b, j);
    if i < |a| && j < |b| && a[i] == b[j] {
      ScriptRelates(a, b, i + 1, j + 1);
      RelatesCons(Op(Keep, a[i]), Script(a, b, i + 1, j + 1), a[i + 1..], b[j + 1..]);
    } else if i < |a| && (j == |b| || Lcs(a, b, i + 1, j) >= Lcs(a, b, i, j + 1)) {
      ScriptRelates(a, b, i + 1, j);
      RelatesCons(Op(Delete, a[i]), Script(a, b, i + 1, j), a[i + 1..], b[j..]);
    } else if j < |b| {
      ScriptRelates(a, b, i, j + 1);
      RelatesCons(Op(Insert, b[j]), Script(a, b, i, j + 1), a[i..], b[j + 1..]);
    } else {
      RelatesNothing();
    }
  }

  lemma SuffixCons(a: seq<string>, i: nat)
    requires i <= |a|
    ensures a[i..] == if i < |a| then [a[i]] + a[i + 1..] else []
  {
  }

  lemma RelatesNothing()
    ensures Relates([], [], []) && KeptLines([]) == []
  {
  }

  lemma RelatesCons(op: Op, ops: seq<Op>, a: seq<string>, b: seq<string>)
    requires Relates(ops, a, b)
    ensures Relates([op] + ops, if op.kind == Insert then a else [op.text] + a, if op.kind == Delete then b else [op.text] + b)
    ensures |KeptLines([op] + ops)| == |KeptLines(ops)| + if op.kind == Keep then 1 else 0
  {
    assert ([op] + ops)[1..] == ops;
  }

  /** Moving one line along either text changes the length by at most one. */
  lemma {:induction false} LcsSmooth(a: seq<string>, b: seq<string>, i: nat, j: nat)
    requires i <= |a| && j <= |b|
    ensures i < |a| ==> Lcs(a, b, i + 1, j) <= Lcs(a, b, i, j) <= Lcs(a, b, i + 1, j) + 1
    ensures j < |b| ==> Lcs(a, b, i, j + 1) <= Lcs(a, b, i, j) <= Lcs(a, b, i, j + 1) + 1
    decreases |a| - i + |b| - j
  {
    if i < |a| && j < |b| {
      LcsSmooth(a, b, i + 1, j);
      LcsSmooth(a, b, i, j + 1);
    }
  }

  /** No script from `a` to `b` keeps more lines. */
  lemma {:induction false} ScriptsKeepAtMost(ops: seq<Op>, a: seq<string>, b: seq<string>, i: nat, j: nat)
    requires i <= |a| && j <= |b| && Relates(ops, a[i..], b[j..])
    ensures |KeptLines(ops)| <= Lcs(a, b, i, j)
    decreases |ops|
  {
    if ops != [] {
      LcsSmooth(a, b, i, j);
      match ops[0].kind
      case Keep =>
        assert a[i..][1..] == a[i + 1..] && b[j..][1..] == b[j + 1..];
        ScriptsKeepAtMost(ops[1..], a, b, i + 1, j + 1);
      case Delete =>
        assert a[i..][1..] == a[i + 1..];
        ScriptsKeepAtMost(ops[1..], a, b, i + 1, j);
      case Insert =>
        assert b[j..][1..] == b[j + 1..];
        ScriptsKeepAtMost(ops[1..], a, b, i, j + 1);
    }
  }

  function ChangeCount(ops: seq<Op>): nat {
    if ops == [] then 0 else (if ops[0].kind == Keep then 0 else 1) + ChangeCount(ops[1..])
  }

  lemma {:induction false} SidesCountChanges(ops: seq<Op>)
    ensures |OldSide(ops)| + |NewSide(ops)| == ChangeCount(ops) + 2 * |KeptLines(ops)|
  {
    if ops != [] {
      SidesCountChanges(ops[1..]);
    }
  }

  /** The emitted script turns `a` into `b` with the fewest `-` and `+` lines. */
  lemma ScriptIsMinimal(a: seq<string>, b: seq<string>, other: seq<Op>)
    requires Relates(other, a, b)
    ensures Relates(Script(a, b, 0, 0), a, b)
    ensures ChangeCount(Script(a, b, 0, 0)) <= ChangeCount(other)
  {
    assert a[0..] == a && b[0..] == b;
    ScriptRelates(a, b, 0, 0);
    ScriptsKeepAtMost(other, a, b, 0, 0);
    SidesCountChanges(other);
    SidesCountChanges(Script(a, b, 0, 0));
  }

  // ----- deletions come first -----

  lemma FirstOp(a: seq<string>, b: seq<string>, i: nat, j: nat)
    requires i <= |a| && j < |b| && Script(a, b, i, j)[0].kind == Insert
    ensures Script(a, b, i, j) == [Op(Insert, b[j])] + Script(a, b, i, j + 1)
    ensures Script(a, b, i, j + 1) != [] ==> Script(a, b, i, j + 1)[0].kind != Delete
  {
    if i < |a| {
      LcsSmooth(a, b, i + 1, j);
    }
  }

  /** Where a change replaces lines, the old ones come first: no addition is directly followed by a removal. */
  lemma {:induction false} DeletionsFirst(a: seq<string>, b: seq<string>, i: nat, j: nat, k: nat)
    requires i <= |a| && j <= |b| && k + 1 < |Script(a, b, i, j)|
    ensures !(Script(a, b, i, j)[k].kind == Insert && Script(a, b, i, j)[k + 1].kind == Delete)
    decreases |a| - i + |b| - j
  {
    hide Lcs;
    var ops := Script(a, b, i, j);
    if ops[0].kind == Insert {
      FirstOp(a, b, i, j);
    }
    if k > 0 {
      var m, n := if ops[0].kind == Insert then i else i + 1, if ops[0].kind == Delete then j else j + 1;
      assert ops[1..] == Script(a, b, m, n);
      DeletionsFirst(a, b, m, n, k - 1);
    }
  }

  ghost predicate Subsequence(c: seq<string>, s: seq<string>) {
    if c == [] then true
    else if s == [] then false
    else (c[0] == s[0] && Subsequence(c[1..], s[1..])) || Subsequence(c, s[1..])
  }

  lemma {:induction false} KeptIsCommon(ops: seq<Op>)
    ensures Subsequence(KeptLines(ops), OldSide(ops)) && Subsequence(KeptLines(ops), NewSide(ops))
  {
    if ops != [] {
      var rest := ops[1..];
      KeptIsCommon(rest);
      match ops[0].kind
      case Keep =>
        assert KeptLines(ops)[1..] == KeptLines(rest);
        assert OldSide(ops)[1..] == OldSide(rest) && NewSide(ops)[1..] == NewSide(rest);
      case Delete =>
        assert KeptLines(ops) == KeptLines(rest) && NewSide(ops) == NewSide(rest);
        assert OldSide(ops)[1..] == OldSide(rest);
      case Insert =>
        assert KeptLines(ops) == KeptLines(rest) && OldSide(ops) == OldSide(rest);
        assert NewSide(ops)[1..] == NewSide(rest);
    }
  }

  lemma {:induction false} CommonAtMost(c: seq<string>, a: seq<string>, b: seq<string>, i: nat, j: nat)
    requires i <= |a| && j <= |b| && Subsequence(c, a[i..]) && Subsequence(c, b[j..])
    ensures |c| <= Lcs(a, b, i, j)
    decreases |a| - i + |b| - j
  {
    if c != [] {
      LcsSmooth(a, b, i, j);
      assert a[i..][1..] == a[i + 1..] && b[j..][1..] == b[j + 1..];
      if !(c[0] == a[i] && Subsequence(c[1..], a[i + 1..])) {
        CommonAtMost(c, a, b, i + 1, j);
      } else if !(c[0] == b[j] && Subsequence(c[1..], b[j + 1..])) {
        CommonAtMost(c, a, b, i, j + 1);
      } else {
        CommonAtMost(c[1..], a, b, i + 1, j + 1);
      }
    }
  }

  /** The table's corner is the length of a longest common subsequence. */
  lemma LcsIsLongest(a: seq<string>, b: seq<string>)
    ensures exists c :: Subsequence(c, a) && Subsequence(c, b) && |c| == Lcs(a, b, 0, 0)
    ensures forall c :: Subsequence(c, a) && Subsequence(c, b) ==> |c| <= Lcs(a, b, 0, 0)
  {
    assert a[0..] == a && b[0..] == b;
    ScriptRelates(a, b, 0, 0);
    KeptIsCommon(Script(a, b, 0, 0));
    forall c | Subsequence(c, a) && Subsequence(c, b) ensures |c| <= Lcs(a, b, 0, 0) {
      CommonAtMost(c, a, b, 0, 0);
    }
  }
}
