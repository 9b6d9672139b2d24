/** When an entry goes stale, and when the audit keeps what README.md promises, from the two files alone. */
module BaselinePromise {
  import opened BaselineTiers
  import opened BaselineAudit
  import opened BaselineReport
  import opened BaselineTheorems
  import opened BaselineRanks

  /** A copy of the valid entry `x` is left over by every tier: a count over the two files, without a matching. */
  ghost predicate GoesStale(entries: seq<Entry>, findings: seq<Finding>, x: Entry) {
    Valid(x) && Outnumbered(ValidEntries(entries), multiset(Identities(findings)), x)
  }

  /** Exactly which entries have a stale copy: the valid ones whose last copy, counting from the lowest key, lies beyond
      what each tier is offered of its fingerprint, or has no fingerprint there. */
  lemma StaleIff(entries: seq<Entry>, findings: seq<Finding>, matches: map<nat, Match>, x: Entry)
    requires AllIdentifiable(entries, findings) && Reconciled(entries, findings, matches)
    ensures (x, Stale) in Verdicts(entries, matches) <==> x in entries && GoesStale(entries, findings, x)
  {
    ValidEntriesIdentifiable(entries);
    ValidEntryCount(entries, ValidPositions(entries), x);
    ReconciledSettles(entries, findings, matches);
    VerdictsFollowSettlement(entries, findings, matches, x, Stale);
    hide Reconciled, ValidEntries, Identities, SettlementOf, Verdicts, Outnumbered, AllIdentifiable;
    var e, f, s := ValidEntries(entries), multiset(Identities(findings)), SettlementOf(entries, findings, matches);
    LeftOverIff(e, f, s, x);
    assert x in entries <==> multiset(entries)[x] > 0;
    assert (x, Stale) in Verdicts(entries, matches) <==> multiset(Verdicts(entries, matches))[(x, Stale)] > 0;
  }

  /** Some finding carries one of the entry's nonempty fingerprints. */
  ghost predicate Found(findings: seq<Finding>, x: Entry) {
    exists j :: 0 <= j < |findings| && Shares(x, findings[j])
  }

  /** What README.md promises of an audit. */
  ghost predicate PromiseKept(entries: seq<Entry>, findings: seq<Finding>, matches: map<nat, Match>) {
    forall i :: 0 <= i < |entries| && Valid(entries[i]) && Found(findings, entries[i]) ==> i in matches
  }

  lemma StaleAt(entries: seq<Entry>, matches: map<nat, Match>, x: Entry)
    requires Valid(x)
    ensures (x, Stale) in Verdicts(entries, matches) <==> exists i :: 0 <= i < |entries| && entries[i] == x && i !in matches
  {
    var v := Verdicts(entries, matches);
    forall i | 0 <= i < |entries| && entries[i] == x ensures v[i] == (x, Stale) <==> i !in matches {
    }
  }

  /** Exactly when it keeps the promise: when no entry that some finding shares a fingerprint with is outnumbered. */
  lemma PromiseKeptIff(entries: seq<Entry>, findings: seq<Finding>, matches: map<nat, Match>)
    requires AllIdentifiable(entries, findings) && Reconciled(entries, findings, matches)
    ensures PromiseKept(entries, findings, matches)
       <==> forall x <- entries :: Found(findings, x) ==> !GoesStale(entries, findings, x)
  {
    forall x | Valid(x)
      ensures x in entries && GoesStale(entries, findings, x)
         <==> exists i :: 0 <= i < |entries| && entries[i] == x && i !in matches
    {
      StaleIff(entries, findings, matches, x);
      StaleAt(entries, matches, x);
    }
    hide Reconciled, Outnumbered, Found;
  }

  // ----- a case to count by hand -----

  ghost function Copies(x: Entry, n: nat): multiset<Entry> {
    multiset{}[x := n]
  }

  lemma RankOfCopies(t: Tier, x: Entry, n: nat)
    ensures Rank(t, Copies(x, n), x) == n && Supply(t, Copies(x, n), x) == n
  {
    KeyAtMostItself(x);
    var m := Copies(x, n);
    assert Group(m, t, TierKey(t, x)) == m && UpTo(m, x) == m && |m| == n;
  }

  lemma CopiesAfter(t: Tier, x: Entry, a: nat, b: nat, n: nat)
    requires n == if TierKey(t, x) == "" then 0 else Min(a, b)
    ensures n <= a && n <= b && After(t, Offer(Copies(x, a), Copies(x, b))) == Offer(Copies(x, a - n), Copies(x, b - n))
  {
    RankOfCopies(t, x, a);
    RankOfCopies(t, x, b);
    MatchedCopies(t, x, a, b);
    MatchedCopies(t, x, b, a);
    assert n <= a && n <= b && n == if TierKey(t, x) == "" then 0 else Min(b, a);
    hide Rank, Supply, Matched, Copies, Min, TierKey;
    CopiesLess(x, a, n);
    CopiesLess(x, b, n);
  }

  lemma CopiesLess(x: Entry, a: nat, n: nat)
    requires n <= a
    ensures Copies(x, a) - Copies(x, n) == Copies(x, a - n)
  {
  }

  lemma MatchedCopies(t: Tier, x: Entry, a: nat, b: nat)
    requires Rank(t, Copies(x, a), x) == a && Supply(t, Copies(x, b), x) == b
    ensures Matched(t, Copies(x, a), Copies(x, b)) == Copies(x, if TierKey(t, x) == "" then 0 else Min(a, b))
  {
    hide Rank, Supply;
    var m := Matched(t, Copies(x, a), Copies(x, b));
    assert m[x] == Share(t, Copies(x, a), Copies(x, b), x);
    assert forall y :: y != x ==> m[y] == 0;
  }

  /** With nothing but copies of one entry and findings that equal it, a copy goes stale exactly when there are more
      copies than findings. */
  lemma CopiesOutnumbered(x: Entry, copies: nat, found: nat)
    requires Valid(x)
    ensures Outnumbered(Copies(x, copies), Copies(x, found), x) <==> copies > found
  {
    hide Rank, Supply, Copies, After;
    var e, f := Copies(x, copies), Copies(x, found);
    OutnumberedIff(e, f, x);
    OfferChain(e, f);
    CopiesAfter(Exact, x, copies, found, Min(copies, found));
    RankOfCopies(Exact, x, copies);
    RankOfCopies(Exact, x, found);
    if copies > found {
      var left := copies - found;
      CopiesAfter(Context, x, left, 0, 0);
      RankOfCopies(Context, x, left);
      RankOfCopies(Context, x, 0);
      RankOfCopies(Content, x, left);
      RankOfCopies(Content, x, 0);
    }
  }
}
