/** What a printed diff looks like, and which lines it shows. */
module DiffMeaning {
  import opened Text
  import opened UnifiedDiff
  import opened DiffHunks
  import opened PatchText

  /** A line is shown exactly when it, or one of the three before or after it, is a change. */
  lemma ShownWhen(ops: seq<Op>, hunks: seq<Range>, p: nat)
    requires HunksExact(ops, hunks) && p < |ops|
    ensures Covered(hunks, p) <==>
      exists c :: 0 <= c < |ops| && ops[c].kind != Keep && (p == c || p < c <= p + 3 || c < p <= c + 3)
  {
    if NearChange(ops, p) {
      var c :| 0 <= c < |ops| && ops[c].kind != Keep && p - CONTEXT <= c <= p + CONTEXT;
      assert p == c || p < c <= p + 3 || c < p <= c + 3;
    }
  }

  /** Kept lines are printed after a blank, removed ones after a minus, added ones after a plus. */
  lemma LinePrinted(op: Op, rest: seq<Op>)
    ensures PrintBody([op] + rest)
         == (if op.kind == Keep then " " else if op.kind == Delete then "-" else "+") + op.text + "\n" + PrintBody(rest)
  {
    var ops := [op] + rest;
    assert ops[1..] == rest;
    assert [KindByte(op.kind)] == if op.kind == Keep then " " else if op.kind == Delete then "-" else "+";
  }

  /** The header of a hunk names where it starts in the old file and how many lines it has there, then the same of the new. */
  lemma HeaderPrinted(h: Hunk)
    requires h.minus.start >= 0 && h.plus.start >= 0
    ensures PrintHunk(h) ==
      "@@ -" + (Decimal(h.minus.start) + "," + Decimal(h.minus.count))
      + " +" + (Decimal(h.plus.start) + "," + Decimal(h.plus.count)) + " @@\n" + PrintBody(h.body)
    ensures FileHeader("doc.md") == "--- a/doc.md\n+++ b/doc.md\n"
  {
    hide Decimal, PrintBody;
  }
}
