/** The matching and the audit read on the fields of entries and findings: which fingerprint each tier compares, which
    tier comes first, and in what order entries and findings meet. */
module BaselineFields {
  import opened Text
  import opened Ordering
  import opened BaselineTiers
  import opened BaselineIndexes
  import opened BaselineAudit
  import opened BaselineReport
  import opened BaselineTheorems
  import Sequences

  lemma MatchedKeys(entries: seq<Entry>, findings: seq<Finding>, matches: map<nat, Match>, i: nat)
    requires Reconciled(entries, findings, matches) && i in matches
    ensures i < |entries| && matches[i].finding < |findings| && Valid(entries[i])
    ensures var t := matches[i].tier;
      TierKey(t, entries[i]) != "" && TierKey(t, entries[i]) == TierKey(t, Identity(findings[matches[i].finding]))
  {
    var t := matches[i].tier;
    TierOf(entries, findings, matches, t);
    assert i in MatchedAt(matches, t);
    assert i in Keyed(entries, MatchedAt(matches, t), t, "") <==> TierKey(t, entries[i]) == "";
  }

  /** A match at a tier is an equality of that tier's fingerprint, which is not empty. */
  lemma MatchedOn(entries: seq<Entry>, findings: seq<Finding>, matches: map<nat, Match>, i: nat)
    requires Reconciled(entries, findings, matches) && i in matches
    ensures i < |entries| && matches[i].finding < |findings| && TrimSpace(entries[i].fingerprint) != ""
    ensures var e, f := entries[i], findings[matches[i].finding];
      && (matches[i].tier == Exact ==> e.fingerprint == f.fingerprint != "")
      && (matches[i].tier == Context ==> e.contextFingerprint == f.contextFingerprint != "")
      && (matches[i].tier == Content ==> e.contentFingerprint == f.contentFingerprint != "")
  {
    MatchedKeys(entries, findings, matches, i);
    BlankTrimsToNothing(entries[i].fingerprint);
    hide Reconciled, TrimSpace, Blank;
  }

  /** Finding `j` was used by an entry at the exact tier; or at the exact or context tier; or at any. */
  ghost predicate UsedBy(matches: map<nat, Match>, j: nat, tiers: set<Tier>) {
    exists k :: k in matches && matches[k].finding == j && matches[k].tier in tiers
  }

  /** An entry that a tier passes over leaves it no finding of its key. */
  lemma PassedOver(entries: seq<Entry>, findings: seq<Finding>, matches: map<nat, Match>, i: nat, j: nat, t: Tier)
    requires Reconciled(entries, findings, matches) && i < |entries| && j < |findings|
    requires i in UnmatchedAfter(entries, matches, t) && i !in MatchedAt(matches, t)
    requires TierKey(t, entries[i]) != "" && TierKey(t, entries[i]) == TierKey(t, Identity(findings[j]))
    ensures j !in UnusedAfter(findings, matches, t) || j in UsedAt(matches, t)
  {
    var k, ids := TierKey(t, entries[i]), Identities(findings);
    TierOf(entries, findings, matches, t);
    var e, f := UnmatchedAfter(entries, matches, t), UnusedAfter(findings, matches, t);
    var m, u := MatchedAt(matches, t), UsedAt(matches, t);
    assert KeyPairsOff(t, k, entries, e, ids, f, m, u);
    hide Reconciled, KeyPairsOff, UnmatchedAfter, UnusedAfter, MatchedAt, UsedAt;
    if j in f - u {
      KeyNotExhausted(t, k, entries, e, ids, f, m, u, i, j);
    }
  }

  lemma UsedUpTo(findings: seq<Finding>, matches: map<nat, Match>, j: nat, t: Tier)
    requires j < |findings| && (j !in UnusedAfter(findings, matches, t) || j in UsedAt(matches, t))
    ensures UsedBy(matches, j, if t == Exact then {Exact} else if t == Context then {Exact, Context} else {Exact, Context, Content})
  {
    assert j in Positions(|findings|);
    assert j in UsedAt(matches, Exact) ==> UsedBy(matches, j, {Exact});
    assert j in UsedAt(matches, Context) ==> UsedBy(matches, j, {Context});
    assert j in UsedAt(matches, Content) ==> UsedBy(matches, j, {Content});
  }

  /** The exact fingerprint comes first: a valid entry that is not matched by it left no finding that carries it. */
  lemma ExactFirst(entries: seq<Entry>, findings: seq<Finding>, matches: map<nat, Match>, i: nat, j: nat)
    requires Reconciled(entries, findings, matches) && i < |entries| && j < |findings|
    requires !Blank(entries[i].fingerprint) && !(i in matches && matches[i].tier == Exact)
    requires entries[i].fingerprint == findings[j].fingerprint
    ensures UsedBy(matches, j, {Exact})
  {
    assert i in ValidPositions(entries);
    PassedOver(entries, findings, matches, i, j, Exact);
    UsedUpTo(findings, matches, j, Exact);
  }

  /** Then the context fingerprint, over the findings that the exact tier left. */
  lemma ContextSecond(entries: seq<Entry>, findings: seq<Finding>, matches: map<nat, Match>, i: nat, j: nat)
    requires Reconciled(entries, findings, matches) && i < |entries| && j < |findings|
    requires !Blank(entries[i].fingerprint) && !(i in matches && (matches[i].tier == Exact || matches[i].tier == Context))
    requires entries[i].contextFingerprint == findings[j].contextFingerprint != ""
    ensures UsedBy(matches, j, {Exact, Context})
  {
    assert i in ValidPositions(entries);
    PassedOver(entries, findings, matches, i, j, Context);
    UsedUpTo(findings, matches, j, Context);
  }

  /** And last the content fingerprint. */
  lemma ContentLast(entries: seq<Entry>, findings: seq<Finding>, matches: map<nat, Match>, i: nat, j: nat)
    requires Reconciled(entries, findings, matches) && i < |entries| && j < |findings|
    requires !Blank(entries[i].fingerprint) && i !in matches
    requires entries[i].contentFingerprint == findings[j].contentFingerprint != ""
    ensures UsedBy(matches, j, {Exact, Context, Content})
  {
    assert i in ValidPositions(entries);
    PassedOver(entries, findings, matches, i, j, Content);
    UsedUpTo(findings, matches, j, Content);
  }

  /** What a row of the audit tells about its entry. */
  lemma RowReads(entries: seq<Entry>, findings: seq<Finding>, matches: map<nat, Match>, n: nat)
    requires Reconciled(entries, findings, matches) && n < |entries|
    ensures var e, row := entries[n], RowAt(entries, findings, matches, n);
      && row.entry == e
      && (row.status == Invalid <==> TrimSpace(e.fingerprint) == "")
      && (row.status == Invalid || row.status == Stale ==> row.matches == [])
      && (row.status == Active(Exact) ==>
            |row.matches| == 1 && row.matches[0] in findings
            && row.matches[0].fingerprint == e.fingerprint)
      && (row.status == Active(Context) ==>
            |row.matches| == 1 && row.matches[0] in findings
            && row.matches[0].contextFingerprint == e.contextFingerprint != "")
      && (row.status == Active(Content) ==>
            |row.matches| == 1 && row.matches[0] in findings
            && row.matches[0].contentFingerprint == e.contentFingerprint != "")
  {
    BlankTrimsToNothing(entries[n].fingerprint);
    if n in matches {
      MatchedOn(entries, findings, matches, n);
    }
    hide Reconciled, TrimSpace, Blank;
  }

  // ----- the counts and the entries with a status -----

  ghost function RowsWith(statuses: seq<Status>, s: Status): set<nat> {
    set k: nat | k < |statuses| && statuses[k] == s
  }

  lemma RowsGrow(statuses: seq<Status>, last: Status, s: Status)
    ensures RowsWith(statuses + [last], s) == RowsWith(statuses, s) + if last == s then {|statuses|} else {}
    ensures |statuses| !in RowsWith(statuses, s)
  {
  }

  lemma {:induction false} TallyCounts(statuses: seq<Status>, s: Status)
    ensures Tally(statuses, s) == |RowsWith(statuses, s)|
  {
    if statuses == [] {
      assert RowsWith(statuses, s) == {};
    } else {
      var init, last := statuses[..|statuses| - 1], statuses[|statuses| - 1];
      assert statuses == init + [last];
      TallyCounts(init, s);
      RowsGrow(init, last, s);
      hide RowsWith;
    }
  }

  /** Each count of an audit is the number of entries with that status. */
  lemma CountsRead(statuses: seq<Status>)
    ensures var c := CountsOf(statuses);
      && c.before == |statuses| && c.activeExact == |RowsWith(statuses, Active(Exact))|
      && c.activeContext == |RowsWith(statuses, Active(Context))| && c.activeContent == |RowsWith(statuses, Active(Content))|
      && c.stale == |RowsWith(statuses, Stale)| && c.invalid == |RowsWith(statuses, Invalid)|
  {
    TallyCounts(statuses, Active(Exact));
    TallyCounts(statuses, Active(Context));
    TallyCounts(statuses, Active(Content));
    TallyCounts(statuses, Stale);
    TallyCounts(statuses, Invalid);
    hide Tally, RowsWith;
  }

  lemma SelectedSnoc(rows: seq<EntryAudit>, row: EntryAudit, wanted: Status -> bool)
    ensures Selected(rows + [row], wanted) == Selected(rows, wanted) + if wanted(row.status) then [row.entry] else []
  {
    assert (rows + [row])[..|rows|] == rows;
  }

  lemma {:induction false} SelectedConcat(a: seq<EntryAudit>, b: seq<EntryAudit>, wanted: Status -> bool)
    ensures Selected(a + b, wanted) == Selected(a, wanted) + Selected(b, wanted)
    decreases |b|
  {
    if b == [] {
      assert a + b == a && Selected(b, wanted) == [];
    } else {
      hide Selected;
      var init, last := b[..|b| - 1], b[|b| - 1];
      Sequences.LastApart(a, b);
      SelectedConcat(a, init, wanted);
      SelectedSnoc(a + init, last, wanted);
      SelectedSnoc(init, last, wanted);
    }
  }

  /** Each row with a wanted status contributes its entry, in the order of the rows, and no other row does. */
  lemma SelectedReads(row: EntryAudit, rest: seq<EntryAudit>, wanted: Status -> bool)
    ensures Selected([], wanted) == []
    ensures Selected([row] + rest, wanted) == (if wanted(row.status) then [row.entry] else []) + Selected(rest, wanted)
  {
    SelectedConcat([row], rest, wanted);
    SelectedSnoc([], row, wanted);
    assert [] + [row] == [row];
  }

  // ----- the order in which entries and findings meet -----

  /** The separator is the least character, so heads without it decide the order. */
  lemma {:induction false} HeadsDecide(x: string, a: string, y: string, b: string)
    requires Free(x, '\0') && Free(y, '\0')
    ensures AtMost(x + ['\0'] + a, y + ['\0'] + b) <==> if x != y then AtMost(x, y) else AtMost(a, b)
  {
    var p, q := x + ['\0'] + a, y + ['\0'] + b;
    assert x == "" ==> p[1..] == a;
    assert y == "" ==> q[1..] == b;
    assert x != "" ==> p[0] == x[0] && p[1..] == x[1..] + ['\0'] + a;
    assert y != "" ==> q[0] == y[0] && q[1..] == y[1..] + ['\0'] + b;
    if x != "" && y != "" && x[0] == y[0] {
      HeadsDecide(x[1..], a, y[1..], b);
      assert x == [x[0]] + x[1..] && y == [y[0]] + y[1..];
    }
  }

  /** Entries and findings are taken in the order of their six fields, the first difference deciding. */
  lemma KeyOrderIsFieldwise(a: Entry, b: Entry)
    requires NulFree(a) && NulFree(b)
    ensures KeyAtMost(a, b) <==>
      if a.fingerprint != b.fingerprint then AtMost(a.fingerprint, b.fingerprint)
      else if a.contextFingerprint != b.contextFingerprint then AtMost(a.contextFingerprint, b.contextFingerprint)
      else if a.contentFingerprint != b.contentFingerprint then AtMost(a.contentFingerprint, b.contentFingerprint)
      else if a.ruleID != b.ruleID then AtMost(a.ruleID, b.ruleID)
      else if a.path != b.path then AtMost(a.path, b.path)
      else AtMost(a.message, b.message)
  {
    EntryKeyUnfolds(a);
    EntryKeyUnfolds(b);
    hide EntryKey, AtMost;
    var a5, b5 := a.message, b.message;
    var a4, b4 := a.path + ['\0'] + a5, b.path + ['\0'] + b5;
    var a3, b3 := a.ruleID + ['\0'] + a4, b.ruleID + ['\0'] + b4;
    var a2, b2 := a.contentFingerprint + ['\0'] + a3, b.contentFingerprint + ['\0'] + b3;
    var a1, b1 := a.contextFingerprint + ['\0'] + a2, b.contextFingerprint + ['\0'] + b2;
    HeadsDecide(a.fingerprint, a1, b.fingerprint, b1);
    HeadsDecide(a.contextFingerprint, a2, b.contextFingerprint, b2);
    HeadsDecide(a.contentFingerprint, a3, b.contentFingerprint, b3);
    HeadsDecide(a.ruleID, a4, b.ruleID, b4);
    HeadsDecide(a.path, a5, b.path, b5);
  }

  /** A finding is ordered, and compared, by its own six fields. */
  lemma IdentityReads(f: Finding)
    ensures Identity(f).fingerprint == f.fingerprint && Identity(f).contextFingerprint == f.contextFingerprint
    ensures Identity(f).contentFingerprint == f.contentFingerprint
    ensures Identity(f).ruleID == f.ruleID && Identity(f).path == f.path && Identity(f).message == f.message
  {
  }
}
