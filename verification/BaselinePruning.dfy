/** Pruning from end to end: an audit, the entries it writes, and the same again on what was written. */
module BaselinePruning {
  import opened BaselineTiers
  import opened BaselineAudit
  import opened BaselineReport
  import opened BaselineTheorems
  import opened Ordering

  // ----- the order of the rows does not matter -----

  lemma {:induction false} SelectedConcat(a: seq<EntryAudit>, b: seq<EntryAudit>, wanted: Status -> bool)
    ensures Selected(a + b, wanted) == Selected(a, wanted) + Selected(b, wanted)
  {
    if b == [] {
      assert a + b == a;
    } else {
      assert (a + b)[..|a + b| - 1] == a + b[..|b| - 1];
      SelectedConcat(a, b[..|b| - 1], wanted);
    }
  }

  lemma SelectedWithout(rows: seq<EntryAudit>, i: nat, wanted: Status -> bool)
    requires i < |rows|
    ensures multiset(Selected(rows, wanted))
         == multiset(Selected(rows[..i] + rows[i + 1..], wanted)) + multiset(Selected([rows[i]], wanted))
    ensures multiset(rows[..i] + rows[i + 1..]) == multiset(rows) - multiset{rows[i]}
  {
    hide Selected;
    var a, x, b := rows[..i], [rows[i]], rows[i + 1..];
    assert rows == a + (x + b);
    SelectedConcat(a, x + b, wanted);
    SelectedConcat(x, b, wanted);
    SelectedConcat(a, b, wanted);
  }

  /** The entries selected from the sorted rows are those selected in file order. */
  lemma {:induction false} SelectedPermutation(a: seq<EntryAudit>, b: seq<EntryAudit>, wanted: Status -> bool)
    requires multiset(a) == multiset(b)
    ensures multiset(Selected(a, wanted)) == multiset(Selected(b, wanted))
    decreases |a|
  {
    hide Selected;
    if a == [] {
      assert |multiset(b)| == 0 && b == [];
    } else {
      var n := |a| - 1;
      assert a[n] in multiset(b);
      var i :| 0 <= i < |b| && b[i] == a[n];
      SelectedWithout(a, n, wanted);
      SelectedWithout(b, i, wanted);
      SelectedPermutation(a[..n] + a[n + 1..], b[..i] + b[i + 1..], wanted);
    }
  }

  // ----- one pruning -----

  /** What pruning a file against some findings may write. */
  ghost predicate Writes(entries: seq<Entry>, findings: seq<Finding>, allowInvalid: bool, result: PruneResult) {
    exists matches :: PrunesBy(entries, findings, matches, allowInvalid, result)
  }

  ghost predicate PrunesBy(entries: seq<Entry>, findings: seq<Finding>, matches: map<nat, Match>, allowInvalid: bool,
                           result: PruneResult) {
    && Reconciled(entries, findings, matches)
    && (result.InvalidEntries? <==> CountsOf(Statuses(entries, matches)).invalid > 0 && !allowInvalid)
    && (result.Pruned? ==>
          IsPruned(entries, findings, matches, allowInvalid, result.entries) && SortedBy(result.entries, ByKey(EntryKey)))
  }

  /** The prune command: `Audit`, then `WritePruned`. */
  method Prune(entries: seq<Entry>, findings: seq<Finding>, allowInvalid: bool) returns (result: PruneResult)
    ensures Writes(entries, findings, allowInvalid, result)
  {
    var counts, audits;
    ghost var matches;
    counts, audits, matches := Audit(entries, findings);
    result := PrunedEntries(counts, audits, allowInvalid);
    SelectedPermutation(audits, Rows(entries, findings, matches), Kept(allowInvalid));
    assert PrunesBy(entries, findings, matches, allowInvalid, result);
  }

  // ----- and again -----

  lemma {:induction false} TallyFinds(statuses: seq<Status>, s: Status)
    ensures Tally(statuses, s) > 0 <==> s in statuses
  {
    if statuses != [] {
      var init, last := statuses[..|statuses| - 1], statuses[|statuses| - 1];
      assert statuses == init + [last];
      TallyFinds(init, s);
    }
  }

  /** After a pruning, an audit finds no status that pruning drops. */
  lemma NoDroppedStatus(entries: seq<Entry>, findings: seq<Finding>, matches: map<nat, Match>, allowInvalid: bool,
                        kept: seq<Entry>, findings': seq<Finding>, matches': map<nat, Match>, dropped: Status)
    requires AllIdentifiable(entries, findings)
    requires Reconciled(entries, findings, matches) && IsPruned(entries, findings, matches, allowInvalid, kept)
    requires multiset(Identities(findings')) == multiset(Identities(findings))
    requires Reconciled(kept, findings', matches') && !Kept(allowInvalid)(dropped)
    ensures Tally(Statuses(kept, matches'), dropped) == 0
  {
    var statuses := Statuses(kept, matches');
    TallyFinds(statuses, dropped);
    var verdicts := Verdicts(kept, matches');
    forall i | 0 <= i < |statuses| ensures statuses[i] != dropped {
      assert verdicts[i] == (kept[i], statuses[i]) && verdicts[i] in multiset(verdicts);
      PruningIsIdempotent(entries, findings, matches, allowInvalid, kept, findings', matches', kept[i], dropped);
    }
  }

  /** Pruning what a pruning wrote, against the same findings in any order, finds nothing stale and writes the same file. */
  lemma PruningTwiceWritesTheSame(entries: seq<Entry>, findings: seq<Finding>, allowInvalid: bool, kept: seq<Entry>,
                                  findings': seq<Finding>, matches': map<nat, Match>, again: PruneResult)
    requires AllIdentifiable(entries, findings)
    requires Writes(entries, findings, allowInvalid, Pruned(kept))
    requires multiset(Identities(findings')) == multiset(Identities(findings))
    requires PrunesBy(kept, findings', matches', allowInvalid, again)
    ensures again == Pruned(kept)
    ensures CountsOf(Statuses(kept, matches')).stale == 0
  {
    var matches :| PrunesBy(entries, findings, matches, allowInvalid, Pruned(kept));
    hide Reconciled, IsPruned, AllIdentifiable, Tally, SortedBy;
    NoDroppedStatus(entries, findings, matches, allowInvalid, kept, findings', matches', Stale);
    if !allowInvalid {
      NoDroppedStatus(entries, findings, matches, allowInvalid, kept, findings', matches', Invalid);
    }
    SecondPruningChangesNothing(entries, findings, matches, allowInvalid, kept, findings', matches', again.entries);
  }
}
