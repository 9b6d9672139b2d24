/** What one reconciliation tier does, stated on multisets: which entries and which
    findings it consumes, whatever the order in which groups are visited. */
module BaselineTiers {
  import opened Text
  import Ordering

  /** `core.BaselineEntry`. A finding's six sort fields have the same shape, so the
      identity of a finding is an `Entry` as well. */
  datatype Entry = Entry(
    fingerprint: string,
    contextFingerprint: string,
    contentFingerprint: string,
    ruleID: string,
    path: string,
    message: string)

  datatype Tier = Exact | Context | Content

  function TierKey(t: Tier, e: Entry): string {
    match t
    case Exact => e.fingerprint
    case Context => e.contextFingerprint
    case Content => e.contentFingerprint
  }

  function EntryKey(e: Entry): string {
    Join([e.fingerprint, e.contextFingerprint, e.contentFingerprint, e.ruleID, e.path, e.message], "\0")
  }

  predicate KeyAtMost(a: Entry, b: Entry) {
    Ordering.AtMost(EntryKey(a), EntryKey(b))
  }

  predicate Valid(e: Entry) {
    !Blank(e.fingerprint)
  }

  predicate NulFree(e: Entry) {
    && Free(e.fingerprint, '\0') && Free(e.contextFingerprint, '\0') && Free(e.contentFingerprint, '\0')
    && Free(e.ruleID, '\0') && Free(e.path, '\0') && Free(e.message, '\0')
  }

  ghost predicate AllNulFree(m: multiset<Entry>) {
    forall e <- m :: NulFree(e)
  }

  lemma EntryKeyUnfolds(e: Entry)
    ensures EntryKey(e) == e.fingerprint + ['\0'] + (e.contextFingerprint + ['\0'] + (e.contentFingerprint + ['\0']
                           + (e.ruleID + ['\0'] + (e.path + ['\0'] + e.message))))
  {
    var parts := [e.fingerprint, e.contextFingerprint, e.contentFingerprint, e.ruleID, e.path, e.message];
    assert parts[1..][1..] == parts[2..] && parts[2..][1..] == parts[3..];
    assert parts[3..][1..] == parts[4..] && parts[4..][1..] == parts[5..] == [e.message];
    assert Join(parts[5..], "\0") == e.message;
    assert Join(parts[4..], "\0") == e.path + ['\0'] + e.message;
    assert Join(parts[3..], "\0") == e.ruleID + ['\0'] + (e.path + ['\0'] + e.message);
    assert Join(parts[2..], "\0") == e.contentFingerprint + ['\0'] + (e.ruleID + ['\0'] + (e.path + ['\0'] + e.message));
    assert Join(parts[1..], "\0") == parts[1] + "\0" + Join(parts[2..], "\0");
    assert EntryKey(e) == parts[0] + "\0" + Join(parts[1..], "\0");
  }

  lemma EntryKeyInjective(a: Entry, b: Entry)
    requires NulFree(a) && NulFree(b) && EntryKey(a) == EntryKey(b)
    ensures a == b
  {
    EntryKeyUnfolds(a);
    EntryKeyUnfolds(b);
    var a4, b4 := a.path + ['\0'] + a.message, b.path + ['\0'] + b.message;
    var a3, b3 := a.ruleID + ['\0'] + a4, b.ruleID + ['\0'] + b4;
    var a2, b2 := a.contentFingerprint + ['\0'] + a3, b.contentFingerprint + ['\0'] + b3;
    var a1, b1 := a.contextFingerprint + ['\0'] + a2, b.contextFingerprint + ['\0'] + b2;
    HeadsAgree(a.fingerprint, a1, b.fingerprint, b1, '\0');
    HeadsAgree(a.contextFingerprint, a2, b.contextFingerprint, b2, '\0');
    HeadsAgree(a.contentFingerprint, a3, b.contentFingerprint, b3, '\0');
    HeadsAgree(a.ruleID, a4, b.ruleID, b4, '\0');
    HeadsAgree(a.path, a.message, b.path, b.message, '\0');
  }

  ghost predicate IsGroup(g: multiset<Entry>, m: multiset<Entry>, t: Tier, k: string) {
    forall e :: g[e] == if TierKey(t, e) == k then m[e] else 0
  }

  lemma {:induction false} GroupExists(m: multiset<Entry>, t: Tier, k: string)
    ensures exists g :: IsGroup(g, m, t, k)
    decreases |m|
  {
    if m == multiset{} {
      assert IsGroup(m, m, t, k);
    } else {
      var e :| e in m;
      GroupExists(m - multiset{e}, t, k);
      var g :| IsGroup(g, m - multiset{e}, t, k);
      IsGroupGrows(g, m, t, k, e);
    }
  }

  lemma IsGroupGrows(g: multiset<Entry>, m: multiset<Entry>, t: Tier, k: string, e: Entry)
    requires e in m && IsGroup(g, m - multiset{e}, t, k)
    ensures IsGroup(if TierKey(t, e) == k then g + multiset{e} else g, m, t, k)
  {
    hide TierKey;
  }

  /** The members of `m` whose key at tier `t` is `k`. */
  ghost function Group(m: multiset<Entry>, t: Tier, k: string): (g: multiset<Entry>)
    ensures IsGroup(g, m, t, k)
  {
    GroupExists(m, t, k);
    var g :| IsGroup(g, m, t, k);
    g
  }

  lemma GroupMonotone(a: multiset<Entry>, b: multiset<Entry>, t: Tier, k: string)
    requires a <= b
    ensures Group(a, t, k) <= Group(b, t, k)
    ensures |Group(a, t, k)| <= |Group(b, t, k)|
  {
    var g, h := Group(a, t, k), Group(b, t, k);
    assert h == g + (h - g);
  }

  /** `part` is a smallest-keys-first selection from `whole`. */
  ghost predicate Lowest(part: multiset<Entry>, whole: multiset<Entry>) {
    part <= whole && forall x, y :: x in part && y in whole - part ==> KeyAtMost(x, y)
  }

  lemma LowestUnique(p: multiset<Entry>, q: multiset<Entry>, whole: multiset<Entry>)
    requires AllNulFree(whole)
    requires Lowest(p, whole) && Lowest(q, whole) && |p| == |q|
    ensures p == q
  {
    if p != q {
      assert p == p * q + (p - q) && q == p * q + (q - p);
      assert p - q != multiset{} && q - p != multiset{};
      var x :| x in p - q;
      var y :| y in q - p;
      assert x in whole - q && y in whole - p;
      assert KeyAtMost(x, y) && KeyAtMost(y, x);
      Ordering.AtMostAntisymmetric(EntryKey(x), EntryKey(y));
      EntryKeyInjective(x, y);
    }
  }

  function Min(a: int, b: int): int {
    if a < b then a else b
  }

  /** One key's entries `ge` and findings `gf` pair off as many as they can, lowest first. */
  ghost predicate PairsOff(ge: multiset<Entry>, gf: multiset<Entry>, gm: multiset<Entry>, gu: multiset<Entry>) {
    && |gm| == |gu| == Min(|ge|, |gf|)
    && Lowest(gm, ge) && Lowest(gu, gf)
  }

  /** Tier `t`, offered entries `e` and findings `f`, matches exactly the entries `m`
      with the findings `u`. */
  ghost predicate TierOutcome(t: Tier, e: multiset<Entry>, f: multiset<Entry>, m: multiset<Entry>, u: multiset<Entry>) {
    && m <= e && u <= f
    && Group(m, t, "") == multiset{} && Group(u, t, "") == multiset{}
    && forall k :: k != "" ==> PairsOff(Group(e, t, k), Group(f, t, k), Group(m, t, k), Group(u, t, k))
  }

  lemma GroupsDetermine(a: multiset<Entry>, b: multiset<Entry>, t: Tier)
    requires forall k :: Group(a, t, k) == Group(b, t, k)
    ensures a == b
  {
    forall e ensures a[e] == b[e] {
      assert Group(a, t, TierKey(t, e))[e] == Group(b, t, TierKey(t, e))[e];
    }
  }

  lemma PairingUnique(ge: multiset<Entry>, gf: multiset<Entry>,
                      gm: multiset<Entry>, gu: multiset<Entry>, gm': multiset<Entry>, gu': multiset<Entry>)
    requires AllNulFree(ge) && AllNulFree(gf)
    requires PairsOff(ge, gf, gm, gu) && PairsOff(ge, gf, gm', gu')
    ensures gm == gm' && gu == gu'
  {
    LowestUnique(gm, gm', ge);
    LowestUnique(gu, gu', gf);
  }

  lemma GroupDeterministic(t: Tier, e: multiset<Entry>, f: multiset<Entry>,
                           m: multiset<Entry>, u: multiset<Entry>, m': multiset<Entry>, u': multiset<Entry>, k: string)
    requires AllNulFree(e) && AllNulFree(f)
    requires TierOutcome(t, e, f, m, u) && TierOutcome(t, e, f, m', u')
    ensures Group(m, t, k) == Group(m', t, k) && Group(u, t, k) == Group(u', t, k)
  {
    if k != "" {
      PairingUnique(Group(e, t, k), Group(f, t, k), Group(m, t, k), Group(u, t, k), Group(m', t, k), Group(u', t, k));
    }
  }

  lemma TierDeterministic(t: Tier, e: multiset<Entry>, f: multiset<Entry>,
                          m: multiset<Entry>, u: multiset<Entry>, m': multiset<Entry>, u': multiset<Entry>)
    requires AllNulFree(e) && AllNulFree(f)
    requires TierOutcome(t, e, f, m, u) && TierOutcome(t, e, f, m', u')
    ensures m == m' && u == u'
  {
    forall k ensures Group(m, t, k) == Group(m', t, k) && Group(u, t, k) == Group(u', t, k) {
      GroupDeterministic(t, e, f, m, u, m', u', k);
    }
    GroupsDetermine(m, m', t);
    GroupsDetermine(u, u', t);
  }

  /** Dropping entries that a tier did not match changes nothing at that tier. */
  lemma TierIgnoresUnmatched(t: Tier, e: multiset<Entry>, f: multiset<Entry>, m: multiset<Entry>, u: multiset<Entry>,
                             kept: multiset<Entry>)
    requires TierOutcome(t, e, f, m, u) && m <= kept <= e
    ensures TierOutcome(t, kept, f, m, u)
  {
    forall k | k != ""
      ensures PairsOff(Group(kept, t, k), Group(f, t, k), Group(m, t, k), Group(u, t, k))
    {
      assert PairsOff(Group(e, t, k), Group(f, t, k), Group(m, t, k), Group(u, t, k));
      GroupMonotone(m, kept, t, k);
      GroupMonotone(kept, e, t, k);
      var rest := Group(kept, t, k) - Group(m, t, k);
      assert forall y :: y in rest ==> y in Group(e, t, k) - Group(m, t, k);
    }
  }

  /** The three tiers run in order, each on what the previous ones left. */
  datatype Settlement = Settlement(
    exact: multiset<Entry>, exactUsed: multiset<Entry>,
    context: multiset<Entry>, contextUsed: multiset<Entry>,
    content: multiset<Entry>, contentUsed: multiset<Entry>)
  {
    ghost function Active(): multiset<Entry> {
      exact + context + content
    }
  }

  ghost predicate Settles(e: multiset<Entry>, f: multiset<Entry>, s: Settlement) {
    && TierOutcome(Exact, e, f, s.exact, s.exactUsed)
    && TierOutcome(Context, e - s.exact, f - s.exactUsed, s.context, s.contextUsed)
    && TierOutcome(Content, e - s.exact - s.context, f - s.exactUsed - s.contextUsed, s.content, s.contentUsed)
  }

  /** Reconciliation is a function of the two multisets, not of any order. */
  lemma SettlementUnique(e: multiset<Entry>, f: multiset<Entry>, s: Settlement, s': Settlement)
    requires AllNulFree(e) && AllNulFree(f)
    requires Settles(e, f, s) && Settles(e, f, s')
    ensures s == s'
  {
    TierDeterministic(Exact, e, f, s.exact, s.exactUsed, s'.exact, s'.exactUsed);
    var e1, f1 := e - s.exact, f - s.exactUsed;
    TierDeterministic(Context, e1, f1, s.context, s.contextUsed, s'.context, s'.contextUsed);
    TierDeterministic(Content, e1 - s.context, f1 - s.contextUsed, s.content, s.contentUsed, s'.content, s'.contentUsed);
  }

  /** The entries a run keeps settle among themselves exactly as they did in the full file. */
  lemma PruningPreservesSettlement(e: multiset<Entry>, f: multiset<Entry>, s: Settlement)
    requires Settles(e, f, s)
    ensures s.Active() <= e
    ensures Settles(s.Active(), f, s)
  {
    var kept := s.Active();
    TierIgnoresUnmatched(Exact, e, f, s.exact, s.exactUsed, kept);
    assert kept - s.exact == s.context + s.content;
    TierIgnoresUnmatched(Context, e - s.exact, f - s.exactUsed, s.context, s.contextUsed, s.context + s.content);
    assert kept - s.exact - s.context == s.content;
    TierIgnoresUnmatched(Content, e - s.exact - s.context, f - s.exactUsed - s.contextUsed,
                         s.content, s.contentUsed, s.content);
  }
}
