/** What the audit promises over every input: maximality, independence of order, and idempotent pruning. */
module BaselineTheorems {
  import opened BaselineTiers
  import opened BaselineIndexes
  import opened BaselineAudit
  import opened BaselineReport
  import opened Ordering

  ghost function UnmatchedAfter(entries: seq<Entry>, matches: map<nat, Match>, t: Tier): set<nat> {
    match t
    case Exact => ValidPositions(entries)
    case Context => ValidPositions(entries) - MatchedAt(matches, Exact)
    case Content => ValidPositions(entries) - MatchedAt(matches, Exact) - MatchedAt(matches, Context)
  }

  ghost function UnusedAfter(findings: seq<Finding>, matches: map<nat, Match>, t: Tier): set<nat> {
    match t
    case Exact => Positions(|findings|)
    case Context => Positions(|findings|) - UsedAt(matches, Exact)
    case Content => Positions(|findings|) - UsedAt(matches, Exact) - UsedAt(matches, Context)
  }

  lemma TierOf(entries: seq<Entry>, findings: seq<Finding>, matches: map<nat, Match>, t: Tier)
    requires Reconciled(entries, findings, matches)
    ensures PositionOutcome(t, entries, UnmatchedAfter(entries, matches, t), Identities(findings),
                            UnusedAfter(findings, matches, t), MatchedAt(matches, t), UsedAt(matches, t))
  {
  }

  /** No unmatched valid entry and unused finding share a nonempty fingerprint at any tier. */
  lemma MatchingIsMaximal(entries: seq<Entry>, findings: seq<Finding>, matches: map<nat, Match>, i: nat, j: nat, t: Tier)
    requires Reconciled(entries, findings, matches)
    requires i < |entries| && Valid(entries[i]) && i !in matches
    requires j < |findings| && forall k <- matches :: matches[k].finding != j
    ensures TierKey(t, entries[i]) == "" || TierKey(t, entries[i]) != TierKey(t, Identity(findings[j]))
  {
    var k, ids := TierKey(t, entries[i]), Identities(findings);
    if k != "" {
      TierOf(entries, findings, matches, t);
      var e, f := UnmatchedAfter(entries, matches, t), UnusedAfter(findings, matches, t);
      var m, u := MatchedAt(matches, t), UsedAt(matches, t);
      assert KeyPairsOff(t, k, entries, e, ids, f, m, u);
      UntouchedIsOffered(entries, findings, matches, i, j, t);
      KeyNotExhausted(t, k, entries, e, ids, f, m, u, i, j);
    }
  }

  lemma UntouchedIsOffered(entries: seq<Entry>, findings: seq<Finding>, matches: map<nat, Match>, i: nat, j: nat, t: Tier)
    requires i < |entries| && Valid(entries[i]) && i !in matches
    requires j < |findings| && forall k <- matches :: matches[k].finding != j
    ensures i in UnmatchedAfter(entries, matches, t) && i !in MatchedAt(matches, t)
    ensures j in UnusedAfter(findings, matches, t) && j !in UsedAt(matches, t)
  {
    assert i in ValidPositions(entries) && j in Positions(|findings|);
  }

  /** A key that is paired off as far as possible cannot leave both an entry and a finding over. */
  lemma KeyNotExhausted(t: Tier, k: string, entries: seq<Entry>, e: set<nat>, ids: seq<Entry>, f: set<nat>,
                        m: set<nat>, u: set<nat>, i: nat, j: nat)
    requires KeyPairsOff(t, k, entries, e, ids, f, m, u)
    requires i in e - m && i < |entries| && TierKey(t, entries[i]) == k
    requires j in f - u && j < |ids|
    ensures TierKey(t, ids[j]) != k
  {
    var ek, mk, fk, uk := Keyed(entries, e, t, k), Keyed(entries, m, t, k), Keyed(ids, f, t, k), Keyed(ids, u, t, k);
    assert i in ek && i !in mk;
    StrictSubsetIsSmaller(mk, ek);
    if uk < fk {
      StrictSubsetIsSmaller(uk, fk);
    }
    assert uk == fk && j !in uk;
  }

  lemma StrictSubsetIsSmaller(a: set<nat>, b: set<nat>)
    requires a < b
    ensures |a| < |b|
  {
    assert b == a + (b - a) && b - a != {};
  }

  /** Every valid entry with exact fingerprint `k` is kept at the exact tier if and only if at
      least as many findings carry `k`. */
  lemma ExactGroupKeptIff(entries: seq<Entry>, findings: seq<Finding>, matches: map<nat, Match>, k: string)
    requires Reconciled(entries, findings, matches) && k != ""
    ensures Keyed(entries, ValidPositions(entries), Exact, k) <= MatchedAt(matches, Exact)
       <==> |Keyed(entries, ValidPositions(entries), Exact, k)|
            <= |Keyed(Identities(findings), Positions(|findings|), Exact, k)|
  {
    TierOf(entries, findings, matches, Exact);
    KeyFullyMatchedIff(Exact, k, entries, ValidPositions(entries), Identities(findings), Positions(|findings|),
                       MatchedAt(matches, Exact), UsedAt(matches, Exact));
  }

  lemma KeyFullyMatchedIff(t: Tier, k: string, entries: seq<Entry>, e: set<nat>, ids: seq<Entry>, f: set<nat>,
                           m: set<nat>, u: set<nat>)
    requires m <= e && KeyPairsOff(t, k, entries, e, ids, f, m, u)
    ensures Keyed(entries, e, t, k) <= m <==> |Keyed(entries, e, t, k)| <= |Keyed(ids, f, t, k)|
  {
    var ek, mk := Keyed(entries, e, t, k), Keyed(entries, m, t, k);
    if mk < ek {
      StrictSubsetIsSmaller(mk, ek);
      var i :| i in ek - mk;
      assert i !in m;
    } else {
      assert mk == ek;
    }
  }

  /** A finding carries one of the entry's nonempty fingerprints. */
  ghost predicate Shares(e: Entry, f: Finding) {
    exists t :: TierKey(t, e) != "" && TierKey(t, e) == TierKey(t, Identity(f))
  }

  ghost predicate Taken(matches: map<nat, Match>, i: nat, j: nat) {
    exists k :: k in matches && k != i && matches[k].finding == j
  }

  lemma MatchedShares(entries: seq<Entry>, findings: seq<Finding>, matches: map<nat, Match>, i: nat)
    requires Reconciled(entries, findings, matches) && i in matches
    ensures i < |entries| && Valid(entries[i]) && matches[i].finding < |findings|
    ensures Shares(entries[i], findings[matches[i].finding]) && !Taken(matches, i, matches[i].finding)
  {
    var t := matches[i].tier;
    TierOf(entries, findings, matches, t);
    assert i in MatchedAt(matches, t);
    assert i in Keyed(entries, MatchedAt(matches, t), t, "") <==> TierKey(t, entries[i]) == "";
    assert TierKey(t, entries[i]) == TierKey(t, Identity(findings[matches[i].finding]));
  }

  /** Exactly when a valid entry stays active: when some finding that carries one of its fingerprints is not matched to
      another entry. */
  lemma ActiveIff(entries: seq<Entry>, findings: seq<Finding>, matches: map<nat, Match>, i: nat)
    requires Reconciled(entries, findings, matches) && i < |entries| && Valid(entries[i])
    ensures i in matches <==> exists j :: 0 <= j < |findings| && Shares(entries[i], findings[j]) && !Taken(matches, i, j)
  {
    if i in matches {
      MatchedShares(entries, findings, matches, i);
    } else if j :| 0 <= j < |findings| && Shares(entries[i], findings[j]) && !Taken(matches, i, j) {
      var t :| TierKey(t, entries[i]) != "" && TierKey(t, entries[i]) == TierKey(t, Identity(findings[j]));
      assert forall k <- matches :: matches[k].finding != j;
      MatchingIsMaximal(entries, findings, matches, i, j, t);
    }
  }

  /** No two valid entries carry a fingerprint of the same finding. */
  ghost predicate NoRivals(entries: seq<Entry>, findings: seq<Finding>) {
    forall i, k, j :: 0 <= i < k < |entries| && 0 <= j < |findings| && Valid(entries[i]) && Valid(entries[k]) ==>
      !(Shares(entries[i], findings[j]) && Shares(entries[k], findings[j]))
  }

  /** Without rivals README.md is right: an entry is active if and only if one of its fingerprints matches a finding. */
  lemma PromiseHoldsWithoutRivals(entries: seq<Entry>, findings: seq<Finding>, matches: map<nat, Match>, i: nat)
    requires Reconciled(entries, findings, matches) && NoRivals(entries, findings)
    requires i < |entries| && Valid(entries[i])
    ensures i in matches <==> exists j :: 0 <= j < |findings| && Shares(entries[i], findings[j])
  {
    ActiveIff(entries, findings, matches, i);
    forall j | 0 <= j < |findings| && Shares(entries[i], findings[j]) ensures !Taken(matches, i, j) {
      if k :| k in matches && k != i && matches[k].finding == j {
        MatchedShares(entries, findings, matches, k);
      }
    }
  }

  /** README.md says an entry stays active whenever one of its fingerprints matches a current
      finding. The matching is one to one, so two copies of an entry cannot share a finding. */
  lemma MatchingFingerprintMayBeStale(e: Entry, f: Finding, matches: map<nat, Match>)
    requires Valid(e) && Identity(f) == e
    requires Reconciled([e, e], [f], matches)
    ensures Statuses([e, e], matches)[0] == Stale || Statuses([e, e], matches)[1] == Stale
  {
    assert 0 in matches ==> matches[0].finding == 0;
    assert 1 in matches ==> matches[1].finding == 0;
  }

  /** The settlement that a matching describes. */
  ghost function SettlementOf(entries: seq<Entry>, findings: seq<Finding>, matches: map<nat, Match>): Settlement {
    var ids := Identities(findings);
    Settlement(
      Elements(entries, MatchedAt(matches, Exact)), Elements(ids, UsedAt(matches, Exact)),
      Elements(entries, MatchedAt(matches, Context)), Elements(ids, UsedAt(matches, Context)),
      Elements(entries, MatchedAt(matches, Content)), Elements(ids, UsedAt(matches, Content)))
  }

  ghost function ValidEntries(entries: seq<Entry>): multiset<Entry> {
    Elements(entries, ValidPositions(entries))
  }

  lemma ReconciledSettles(entries: seq<Entry>, findings: seq<Finding>, matches: map<nat, Match>)
    requires Reconciled(entries, findings, matches)
    ensures Settles(ValidEntries(entries), multiset(Identities(findings)), SettlementOf(entries, findings, matches))
  {
    var ids := Identities(findings);
    ElementsAll(ids, Positions(|findings|));
    forall t: Tier
      ensures TierOutcome(t, Elements(entries, UnmatchedAfter(entries, matches, t)),
                          Elements(ids, UnusedAfter(findings, matches, t)),
                          Elements(entries, MatchedAt(matches, t)), Elements(ids, UsedAt(matches, t)))
    {
      TierOf(entries, findings, matches, t);
      PositionsSettleTier(t, entries, UnmatchedAfter(entries, matches, t), ids, UnusedAfter(findings, matches, t),
                          MatchedAt(matches, t), UsedAt(matches, t));
    }
    EntriesLeftOver(entries, findings, matches);
    FindingsLeftOver(entries, findings, matches);
    assert TierOutcome(Exact, Elements(entries, UnmatchedAfter(entries, matches, Exact)),
                       Elements(ids, UnusedAfter(findings, matches, Exact)),
                       Elements(entries, MatchedAt(matches, Exact)), Elements(ids, UsedAt(matches, Exact)));
  }

  lemma TakeTwice(items: seq<Entry>, s: set<nat>, a: set<nat>, b: set<nat>)
    requires a <= s && b <= s - a
    ensures Elements(items, s - a) == Elements(items, s) - Elements(items, a)
    ensures Elements(items, s - a - b) == Elements(items, s) - Elements(items, a) - Elements(items, b)
  {
    ElementsOfDifference(items, s, a);
    ElementsOfDifference(items, s - a, b);
  }

  lemma TiersNest(entries: seq<Entry>, findings: seq<Finding>, matches: map<nat, Match>)
    requires Reconciled(entries, findings, matches)
    ensures forall t :: MatchedAt(matches, t) <= UnmatchedAfter(entries, matches, t)
    ensures forall t :: UsedAt(matches, t) <= UnusedAfter(findings, matches, t)
    ensures ValidPositions(entries) - matches.Keys == UnmatchedAfter(entries, matches, Content) - MatchedAt(matches, Content)
  {
    forall t: Tier
      ensures MatchedAt(matches, t) <= UnmatchedAfter(entries, matches, t)
      ensures UsedAt(matches, t) <= UnusedAfter(findings, matches, t)
    {
      TierOf(entries, findings, matches, t);
    }
  }

  lemma EntriesLeftOver(entries: seq<Entry>, findings: seq<Finding>, matches: map<nat, Match>)
    requires Reconciled(entries, findings, matches)
    ensures var s := SettlementOf(entries, findings, matches);
      && Elements(entries, UnmatchedAfter(entries, matches, Context)) == ValidEntries(entries) - s.exact
      && Elements(entries, UnmatchedAfter(entries, matches, Content)) == ValidEntries(entries) - s.exact - s.context
      && Elements(entries, ValidPositions(entries) - matches.Keys) == ValidEntries(entries) - s.exact - s.context - s.content
  {
    TiersNest(entries, findings, matches);
    assert MatchedAt(matches, Context) <= UnmatchedAfter(entries, matches, Context);
    TakeTwice(entries, ValidPositions(entries), MatchedAt(matches, Exact), MatchedAt(matches, Context));
    ElementsOfDifference(entries, UnmatchedAfter(entries, matches, Content), MatchedAt(matches, Content));
  }

  lemma FindingsLeftOver(entries: seq<Entry>, findings: seq<Finding>, matches: map<nat, Match>)
    requires Reconciled(entries, findings, matches)
    ensures var s, ids := SettlementOf(entries, findings, matches), Identities(findings);
      && Elements(ids, UnusedAfter(findings, matches, Context)) == multiset(ids) - s.exactUsed
      && Elements(ids, UnusedAfter(findings, matches, Content)) == multiset(ids) - s.exactUsed - s.contextUsed
  {
    var ids := Identities(findings);
    TiersNest(entries, findings, matches);
    assert UsedAt(matches, Context) <= UnusedAfter(findings, matches, Context);
    ElementsAll(ids, Positions(|findings|));
    TakeTwice(ids, Positions(|findings|), UsedAt(matches, Exact), UsedAt(matches, Context));
  }

  // ----- verdicts: the (entry, status) multiset -----

  lemma {:induction false} VerdictCount(entries: seq<Entry>, statuses: seq<Status>, e: Entry, s: Status, at: set<nat>)
    requires |entries| == |statuses|
    requires forall i :: 0 <= i < |entries| ==> (i in at <==> statuses[i] == s)
    ensures multiset(Paired(entries, statuses))[(e, s)] == Elements(entries, at)[e]
  {
    if entries != [] {
      var n := |entries| - 1;
      VerdictCount(entries[..n], statuses[..n], e, s, at);
      assert Paired(entries, statuses) == Paired(entries[..n], statuses[..n]) + [(entries[n], statuses[n])];
    }
  }

  function Paired(entries: seq<Entry>, statuses: seq<Status>): seq<(Entry, Status)>
    requires |entries| == |statuses|
  {
    seq(|entries|, i requires 0 <= i < |entries| => (entries[i], statuses[i]))
  }

  /** The (entry, status) pairs of an audit. */
  function Verdicts(entries: seq<Entry>, matches: map<nat, Match>): seq<(Entry, Status)> {
    Paired(entries, Statuses(entries, matches))
  }

  lemma {:induction false} ValidEntryCount(entries: seq<Entry>, valid: set<nat>, e: Entry)
    requires forall i :: 0 <= i < |entries| ==> (i in valid <==> Valid(entries[i]))
    ensures Elements(entries, valid)[e] == if Valid(e) then multiset(entries)[e] else 0
  {
    if entries != [] {
      var n := |entries| - 1;
      ValidEntryCount(entries[..n], valid, e);
      assert entries == entries[..n] + [entries[n]];
    }
  }

  /** How often each verdict occurs, as a function of the settlement alone. */
  ghost function VerdictIn(entries: multiset<Entry>, s: Settlement, e: Entry, status: Status): nat {
    match status
    case Invalid => if Valid(e) then 0 else entries[e]
    case Stale => if Valid(e) then (entries - s.exact - s.context - s.content)[e] else 0
    case Active(Exact) => s.exact[e]
    case Active(Context) => s.context[e]
    case Active(Content) => s.content[e]
  }

  /** The positions that carry a status. */
  ghost function PositionsOf(entries: seq<Entry>, matches: map<nat, Match>, status: Status): set<nat> {
    match status
    case Invalid => Positions(|entries|) - ValidPositions(entries)
    case Stale => ValidPositions(entries) - matches.Keys
    case Active(t) => MatchedAt(matches, t)
  }

  lemma PositionsCarryStatus(entries: seq<Entry>, findings: seq<Finding>, matches: map<nat, Match>, status: Status)
    requires Reconciled(entries, findings, matches)
    ensures forall i :: 0 <= i < |entries| ==>
      (i in PositionsOf(entries, matches, status) <==> Statuses(entries, matches)[i] == status)
  {
    TiersNest(entries, findings, matches);
    forall t: Tier ensures MatchedAt(matches, t) <= ValidPositions(entries) {
      assert MatchedAt(matches, t) <= UnmatchedAfter(entries, matches, t);
    }
    assert forall i <- matches :: i in MatchedAt(matches, matches[i].tier);
  }

  lemma InvalidElements(entries: seq<Entry>, e: Entry)
    ensures Elements(entries, Positions(|entries|) - ValidPositions(entries))[e] == if Valid(e) then 0 else multiset(entries)[e]
  {
    ValidEntryCount(entries, ValidPositions(entries), e);
    ElementsAll(entries, Positions(|entries|));
    ElementsOfDifference(entries, Positions(|entries|), ValidPositions(entries));
  }

  lemma StaleElements(entries: seq<Entry>, findings: seq<Finding>, matches: map<nat, Match>, e: Entry)
    requires Reconciled(entries, findings, matches)
    ensures Elements(entries, ValidPositions(entries) - matches.Keys)[e]
         == VerdictIn(multiset(entries), SettlementOf(entries, findings, matches), e, Stale)
  {
    EntriesLeftOver(entries, findings, matches);
    ValidEntryCount(entries, ValidPositions(entries), e);
    var s := SettlementOf(entries, findings, matches);
    assert (ValidEntries(entries) - s.exact - s.context - s.content)[e]
        == if Valid(e) then (multiset(entries) - s.exact - s.context - s.content)[e] else 0;
  }

  lemma ElementsOfStatus(entries: seq<Entry>, findings: seq<Finding>, matches: map<nat, Match>, status: Status, e: Entry)
    requires Reconciled(entries, findings, matches)
    ensures Elements(entries, PositionsOf(entries, matches, status))[e]
         == VerdictIn(multiset(entries), SettlementOf(entries, findings, matches), e, status)
  {
    match status
    case Invalid => InvalidElements(entries, e);
    case Stale => StaleElements(entries, findings, matches, e);
    case Active(_) =>
  }

  lemma VerdictsFollowSettlement(entries: seq<Entry>, findings: seq<Finding>, matches: map<nat, Match>, e: Entry, status: Status)
    requires Reconciled(entries, findings, matches)
    ensures multiset(Verdicts(entries, matches))[(e, status)]
         == VerdictIn(multiset(entries), SettlementOf(entries, findings, matches), e, status)
  {
    PositionsCarryStatus(entries, findings, matches, status);
    VerdictCount(entries, Statuses(entries, matches), e, status, PositionsOf(entries, matches, status));
    ElementsOfStatus(entries, findings, matches, status, e);
  }

  ghost predicate AllIdentifiable(entries: seq<Entry>, findings: seq<Finding>) {
    AllNulFree(multiset(entries)) && AllNulFree(multiset(Identities(findings)))
  }

  lemma SameValidEntries(entries: seq<Entry>, entries': seq<Entry>)
    requires multiset(entries) == multiset(entries')
    ensures ValidEntries(entries) == ValidEntries(entries')
  {
    forall e ensures ValidEntries(entries)[e] == ValidEntries(entries')[e] {
      ValidEntryCount(entries, ValidPositions(entries), e);
      ValidEntryCount(entries', ValidPositions(entries'), e);
    }
  }

  lemma ValidEntriesIdentifiable(entries: seq<Entry>)
    requires AllNulFree(multiset(entries))
    ensures AllNulFree(ValidEntries(entries)) && ValidEntries(entries) <= multiset(entries)
  {
    ElementsAll(entries, Positions(|entries|));
    ElementsOfDifference(entries, Positions(|entries|), ValidPositions(entries));
  }

  lemma SameSettlement(entries: seq<Entry>, findings: seq<Finding>, matches: map<nat, Match>,
                       entries': seq<Entry>, findings': seq<Finding>, matches': map<nat, Match>)
    requires AllIdentifiable(entries, findings)
    requires multiset(entries) == multiset(entries')
    requires multiset(Identities(findings)) == multiset(Identities(findings'))
    requires Reconciled(entries, findings, matches) && Reconciled(entries', findings', matches')
    ensures SettlementOf(entries, findings, matches) == SettlementOf(entries', findings', matches')
  {
    SameValidEntries(entries, entries');
    ValidEntriesIdentifiable(entries);
    ReconciledSettles(entries, findings, matches);
    ReconciledSettles(entries', findings', matches');
    SettlementUnique(ValidEntries(entries), multiset(Identities(findings)),
                     SettlementOf(entries, findings, matches), SettlementOf(entries', findings', matches'));
  }

  /** The verdicts and the counts do not depend on the order of entries or findings, on the order
      in which groups are visited, or on how the sorts break ties. */
  lemma OrderIndependence(entries: seq<Entry>, findings: seq<Finding>, matches: map<nat, Match>,
                          entries': seq<Entry>, findings': seq<Finding>, matches': map<nat, Match>)
    requires AllIdentifiable(entries, findings)
    requires multiset(entries) == multiset(entries')
    requires multiset(Identities(findings)) == multiset(Identities(findings'))
    requires Reconciled(entries, findings, matches) && Reconciled(entries', findings', matches')
    ensures multiset(Verdicts(entries, matches)) == multiset(Verdicts(entries', matches'))
    ensures CountsOf(Statuses(entries, matches)) == CountsOf(Statuses(entries', matches'))
  {
    SameSettlement(entries, findings, matches, entries', findings', matches');
    forall v: (Entry, Status)
      ensures multiset(Verdicts(entries, matches))[v] == multiset(Verdicts(entries', matches'))[v]
    {
      VerdictsFollowSettlement(entries, findings, matches, v.0, v.1);
      VerdictsFollowSettlement(entries', findings', matches', v.0, v.1);
    }
    assert |multiset(entries)| == |entries| && |multiset(entries')| == |entries'|;
    forall s ensures Tally(Statuses(entries, matches), s) == Tally(Statuses(entries', matches'), s) {
      SameTally(entries, findings, matches, entries', findings', matches', s);
    }
  }

  lemma {:induction false} TallyCountsElements(entries: seq<Entry>, statuses: seq<Status>, s: Status, at: set<nat>)
    requires |entries| == |statuses|
    requires forall i :: 0 <= i < |entries| ==> (i in at <==> statuses[i] == s)
    ensures Tally(statuses, s) == |Elements(entries, at)|
  {
    if entries != [] {
      TallyCountsElements(entries[..|entries| - 1], statuses[..|entries| - 1], s, at);
    }
  }

  lemma SameTally(entries: seq<Entry>, findings: seq<Finding>, matches: map<nat, Match>,
                  entries': seq<Entry>, findings': seq<Finding>, matches': map<nat, Match>, s: Status)
    requires multiset(entries) == multiset(entries')
    requires Reconciled(entries, findings, matches) && Reconciled(entries', findings', matches')
    requires SettlementOf(entries, findings, matches) == SettlementOf(entries', findings', matches')
    ensures Tally(Statuses(entries, matches), s) == Tally(Statuses(entries', matches'), s)
  {
    var at, at' := PositionsOf(entries, matches, s), PositionsOf(entries', matches', s);
    PositionsCarryStatus(entries, findings, matches, s);
    PositionsCarryStatus(entries', findings', matches', s);
    TallyCountsElements(entries, Statuses(entries, matches), s, at);
    TallyCountsElements(entries', Statuses(entries', matches'), s, at');
    forall e ensures Elements(entries, at)[e] == Elements(entries', at')[e] {
      ElementsOfStatus(entries, findings, matches, s, e);
      ElementsOfStatus(entries', findings', matches', s, e);
    }
    assert Elements(entries, at) == Elements(entries', at');
  }

  /** Before = Active + Stale + Invalid. */
  lemma {:induction false} CountsPartition(statuses: seq<Status>)
    ensures var c := CountsOf(statuses); c.before == c.Active() + c.stale + c.invalid
  {
    if statuses != [] {
      var n := |statuses| - 1;
      CountsPartition(statuses[..n]);
      CountsGrow(statuses, n);
      assert statuses[..n + 1] == statuses;
    }
  }

  // ----- pruning -----

  /** How often `e` occurs with a wanted status. */
  function StatusSum(verdicts: multiset<(Entry, Status)>, e: Entry, wanted: Status -> bool): nat {
    (if wanted(Invalid) then verdicts[(e, Invalid)] else 0) + (if wanted(Stale) then verdicts[(e, Stale)] else 0)
    + (if wanted(Active(Exact)) then verdicts[(e, Active(Exact))] else 0)
    + (if wanted(Active(Context)) then verdicts[(e, Active(Context))] else 0)
    + (if wanted(Active(Content)) then verdicts[(e, Active(Content))] else 0)
  }

  lemma StatusSumGrows(verdicts: multiset<(Entry, Status)>, v: (Entry, Status), e: Entry, wanted: Status -> bool)
    ensures StatusSum(verdicts + multiset{v}, e, wanted)
         == StatusSum(verdicts, e, wanted) + if v.0 == e && wanted(v.1) then 1 else 0
  {
    match v.1
    case Invalid =>
    case Stale =>
    case Active(Exact) =>
    case Active(Context) =>
    case Active(Content) =>
  }

  lemma {:induction false} SelectedCount(audits: seq<EntryAudit>, wanted: Status -> bool, verdicts: seq<(Entry, Status)>, e: Entry)
    requires |audits| == |verdicts|
    requires forall i :: 0 <= i < |audits| ==> verdicts[i] == (audits[i].entry, audits[i].status)
    ensures multiset(Selected(audits, wanted))[e] == StatusSum(multiset(verdicts), e, wanted)
  {
    if audits != [] {
      var n := |audits| - 1;
      SelectedCount(audits[..n], wanted, verdicts[..n], e);
      assert verdicts == verdicts[..n] + [verdicts[n]];
      StatusSumGrows(multiset(verdicts[..n]), verdicts[n], e, wanted);
    }
  }

  /** `kept` holds, in any order, the entries of an audit that `WritePruned` writes. */
  ghost predicate IsPruned(entries: seq<Entry>, findings: seq<Finding>, matches: map<nat, Match>,
                           allowInvalid: bool, kept: seq<Entry>)
    requires forall i <- matches :: matches[i].finding < |findings|
  {
    multiset(kept) == multiset(Selected(Rows(entries, findings, matches), Kept(allowInvalid)))
  }

  lemma KeptVerdicts(entries: seq<Entry>, findings: seq<Finding>, matches: map<nat, Match>, allowInvalid: bool,
                     kept: seq<Entry>, e: Entry)
    requires forall i <- matches :: matches[i].finding < |findings|
    requires IsPruned(entries, findings, matches, allowInvalid, kept)
    ensures multiset(kept)[e] == StatusSum(multiset(Verdicts(entries, matches)), e, Kept(allowInvalid))
  {
    SelectedCount(Rows(entries, findings, matches), Kept(allowInvalid), Verdicts(entries, matches), e);
  }

  lemma KeptCount(entries: seq<Entry>, findings: seq<Finding>, matches: map<nat, Match>, allowInvalid: bool,
                  kept: seq<Entry>, e: Entry)
    requires Reconciled(entries, findings, matches) && IsPruned(entries, findings, matches, allowInvalid, kept)
    ensures var s := SettlementOf(entries, findings, matches);
      multiset(kept)[e] == s.Active()[e] + if allowInvalid && !Valid(e) then multiset(entries)[e] else 0
  {
    KeptVerdicts(entries, findings, matches, allowInvalid, kept, e);
    forall status: Status
      ensures multiset(Verdicts(entries, matches))[(e, status)]
           == VerdictIn(multiset(entries), SettlementOf(entries, findings, matches), e, status)
    {
      VerdictsFollowSettlement(entries, findings, matches, e, status);
    }
  }

  lemma ActiveEntriesAreValid(entries: seq<Entry>, findings: seq<Finding>, matches: map<nat, Match>, e: Entry)
    requires Reconciled(entries, findings, matches)
    ensures SettlementOf(entries, findings, matches).Active()[e] <= if Valid(e) then multiset(entries)[e] else 0
  {
    ReconciledSettles(entries, findings, matches);
    PruningPreservesSettlement(ValidEntries(entries), multiset(Identities(findings)), SettlementOf(entries, findings, matches));
    ValidEntryCount(entries, ValidPositions(entries), e);
  }

  lemma KeptValidEntries(entries: seq<Entry>, findings: seq<Finding>, matches: map<nat, Match>, allowInvalid: bool, kept: seq<Entry>)
    requires Reconciled(entries, findings, matches) && IsPruned(entries, findings, matches, allowInvalid, kept)
    ensures ValidEntries(kept) == SettlementOf(entries, findings, matches).Active()
  {
    forall e ensures ValidEntries(kept)[e] == SettlementOf(entries, findings, matches).Active()[e] {
      KeptCount(entries, findings, matches, allowInvalid, kept, e);
      ActiveEntriesAreValid(entries, findings, matches, e);
      ValidEntryCount(kept, ValidPositions(kept), e);
    }
  }

  lemma RerunSettlesTheSame(entries: seq<Entry>, findings: seq<Finding>, matches: map<nat, Match>, allowInvalid: bool,
                            kept: seq<Entry>, findings': seq<Finding>, matches': map<nat, Match>)
    requires AllIdentifiable(entries, findings)
    requires Reconciled(entries, findings, matches) && IsPruned(entries, findings, matches, allowInvalid, kept)
    requires multiset(Identities(findings')) == multiset(Identities(findings))
    requires Reconciled(kept, findings', matches')
    ensures SettlementOf(kept, findings', matches') == SettlementOf(entries, findings, matches)
  {
    var s, f := SettlementOf(entries, findings, matches), multiset(Identities(findings));
    ReconciledSettles(entries, findings, matches);
    PruningPreservesSettlement(ValidEntries(entries), f, s);
    ValidEntriesIdentifiable(entries);
    KeptValidEntries(entries, findings, matches, allowInvalid, kept);
    ReconciledSettles(kept, findings', matches');
    SettlementUnique(s.Active(), f, s, SettlementOf(kept, findings', matches'));
  }

  /** Re-auditing a pruned file against the same findings, in any order, repeats the verdict of
      every surviving entry; in particular nothing is stale. */
  lemma PruningIsIdempotent(entries: seq<Entry>, findings: seq<Finding>, matches: map<nat, Match>, allowInvalid: bool,
                            kept: seq<Entry>, findings': seq<Finding>, matches': map<nat, Match>, e: Entry, status: Status)
    requires AllIdentifiable(entries, findings)
    requires Reconciled(entries, findings, matches) && IsPruned(entries, findings, matches, allowInvalid, kept)
    requires multiset(Identities(findings')) == multiset(Identities(findings))
    requires Reconciled(kept, findings', matches')
    ensures multiset(Verdicts(kept, matches'))[(e, status)]
         == if Kept(allowInvalid)(status) then multiset(Verdicts(entries, matches))[(e, status)] else 0
  {
    hide Reconciled, IsPruned, AllIdentifiable, Verdicts, SettlementOf, Identities, ValidEntries;
    RerunSettlesTheSame(entries, findings, matches, allowInvalid, kept, findings', matches');
    VerdictsFollowSettlement(entries, findings, matches, e, status);
    VerdictsFollowSettlement(kept, findings', matches', e, status);
    KeptCount(entries, findings, matches, allowInvalid, kept, e);
    ActiveEntriesAreValid(entries, findings, matches, e);
  }

  /** So a second pruning writes the very file the first one wrote. */
  lemma SecondPruningChangesNothing(entries: seq<Entry>, findings: seq<Finding>, matches: map<nat, Match>, allowInvalid: bool,
                                    kept: seq<Entry>, findings': seq<Finding>, matches': map<nat, Match>, kept': seq<Entry>)
    requires AllIdentifiable(entries, findings)
    requires Reconciled(entries, findings, matches) && IsPruned(entries, findings, matches, allowInvalid, kept)
    requires multiset(Identities(findings')) == multiset(Identities(findings))
    requires Reconciled(kept, findings', matches') && IsPruned(kept, findings', matches', allowInvalid, kept')
    requires SortedBy(kept, ByKey(EntryKey)) && SortedBy(kept', ByKey(EntryKey))
    ensures kept' == kept
  {
    RerunSettlesTheSame(entries, findings, matches, allowInvalid, kept, findings', matches');
    forall e ensures multiset(kept')[e] == multiset(kept)[e] {
      KeptCount(entries, findings, matches, allowInvalid, kept, e);
      KeptCount(kept, findings', matches', allowInvalid, kept', e);
      ActiveEntriesAreValid(entries, findings, matches, e);
    }
    forall e <- multiset(kept) ensures NulFree(e) {
      KeptCount(entries, findings, matches, allowInvalid, kept, e);
      ActiveEntriesAreValid(entries, findings, matches, e);
      assert e in multiset(entries);
    }
    SortedListingUnique(kept, kept');
  }

  lemma SortedLastsAgree(a: seq<Entry>, b: seq<Entry>)
    requires multiset(a) == multiset(b) && AllNulFree(multiset(a)) && |a| == |b| > 0
    requires SortedBy(a, ByKey(EntryKey)) && SortedBy(b, ByKey(EntryKey))
    ensures a[|a| - 1] == b[|b| - 1]
  {
    var x, y := a[|a| - 1], b[|b| - 1];
    assert x in multiset(b) && y in multiset(a);
    var i :| 0 <= i < |b| && b[i] == x;
    var j :| 0 <= j < |a| && a[j] == y;
    assert i < |b| - 1 ==> ByKey(EntryKey)(b[i], y);
    assert j < |a| - 1 ==> ByKey(EntryKey)(a[j], x);
    if x != y {
      AtMostAntisymmetric(EntryKey(x), EntryKey(y));
      EntryKeyInjective(x, y);
    }
  }

  lemma WithoutLast(a: seq<Entry>)
    requires a != [] && AllNulFree(multiset(a)) && SortedBy(a, ByKey(EntryKey))
    ensures var init := a[..|a| - 1];
      && multiset(init) == multiset(a) - multiset{a[|a| - 1]}
      && AllNulFree(multiset(init)) && SortedBy(init, ByKey(EntryKey))
  {
    assert a == a[..|a| - 1] + [a[|a| - 1]];
  }

  lemma SizesAgree(a: seq<Entry>, b: seq<Entry>)
    requires multiset(a) == multiset(b)
    ensures |a| == |b|
  {
    assert |multiset(a)| == |a| && |multiset(b)| == |b|;
  }

  lemma InitsAndLasts(a: seq<Entry>, b: seq<Entry>)
    requires |a| == |b| > 0 && a[..|a| - 1] == b[..|b| - 1] && a[|a| - 1] == b[|b| - 1]
    ensures a == b
  {
    assert a == a[..|a| - 1] + [a[|a| - 1]] && b == b[..|b| - 1] + [b[|b| - 1]];
  }

  lemma {:induction false} SortedListingUnique(a: seq<Entry>, b: seq<Entry>)
    requires multiset(a) == multiset(b) && AllNulFree(multiset(a))
    requires SortedBy(a, ByKey(EntryKey)) && SortedBy(b, ByKey(EntryKey))
    ensures a == b
  {
    hide *;
    SizesAgree(a, b);
    if a != [] {
      SortedLastsAgree(a, b);
      WithoutLast(a);
      WithoutLast(b);
      SortedListingUnique(a[..|a| - 1], b[..|b| - 1]);
      InitsAndLasts(a, b);
    }
  }
}
