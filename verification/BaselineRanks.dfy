/** How many copies of an entry a tier matches, by counting alone: the tiers of `BaselineTiers` as functions of what
    they are offered. */
module BaselineRanks {
  import opened BaselineTiers

  // ----- multisets by counting -----

  ghost predicate CountsAs(m: multiset<Entry>, count: Entry -> nat) {
    forall x :: m[x] == count(x)
  }

  lemma {:induction false} CountedExists(whole: multiset<Entry>, count: Entry -> nat)
    requires forall x :: count(x) <= whole[x]
    ensures exists m :: CountsAs(m, count)
    decreases |whole|
  {
    if whole == multiset{} {
      assert CountsAs(multiset{}, count);
    } else {
      var e :| e in whole;
      var rest := (x: Entry) => if x == e then 0 else count(x);
      assert whole[e := 0] + multiset{}[e := whole[e]] == whole;
      CountedExists(whole[e := 0], rest);
      var m :| CountsAs(m, rest);
      assert CountsAs(m[e := count(e)], count);
    }
  }

  /** The multiset with the given counts. */
  ghost function Counted(whole: multiset<Entry>, count: Entry -> nat): (m: multiset<Entry>)
    requires forall x :: count(x) <= whole[x]
    ensures CountsAs(m, count)
  {
    CountedExists(whole, count);
    var m :| CountsAs(m, count);
    m
  }

  /** The members of `g` whose key is at most that of `x`. */
  ghost function UpTo(g: multiset<Entry>, x: Entry): (low: multiset<Entry>)
    ensures low <= g && forall y :: low[y] == if KeyAtMost(y, x) then g[y] else 0
  {
    Counted(g, y => if KeyAtMost(y, x) then g[y] else 0)
  }

  // ----- one tier -----

  /** The place of the last copy of `x` among the members of `a` that carry its key at tier `t`, lowest first. */
  ghost function Rank(t: Tier, a: multiset<Entry>, x: Entry): nat {
    |UpTo(Group(a, t, TierKey(t, x)), x)|
  }

  /** How many members of `b` carry the key that `x` has at tier `t`. */
  ghost function Supply(t: Tier, b: multiset<Entry>, x: Entry): nat {
    |Group(b, t, TierKey(t, x))|
  }

  /** How many copies of `x` among `a` the tier pairs with members of `b`: those whose place is at most the supply. */
  ghost function Share(t: Tier, a: multiset<Entry>, b: multiset<Entry>, x: Entry): (n: nat)
    ensures n <= a[x]
  {
    if TierKey(t, x) == "" then 0
    else
      var spare := Supply(t, b, x) - (Rank(t, a, x) - a[x]);
      if spare < 0 then 0 else Min(spare, a[x])
  }

  ghost function Matched(t: Tier, a: multiset<Entry>, b: multiset<Entry>): (m: multiset<Entry>)
    ensures m <= a && forall x :: m[x] == Share(t, a, b, x)
  {
    Counted(a, x => Share(t, a, b, x))
  }

  lemma SmallerPart(part: multiset<Entry>, whole: multiset<Entry>)
    requires part <= whole
    ensures |part| <= |whole| && (|part| == |whole| ==> part == whole)
  {
    assert whole == part + (whole - part);
    assert |whole - part| == 0 ==> whole - part == multiset{};
  }

  /** A lowest selection of limited size takes of `x` what fits after everything lower. */
  lemma LowestTakes(part: multiset<Entry>, whole: multiset<Entry>, limit: nat, x: Entry)
    requires AllNulFree(whole) && Lowest(part, whole) && |part| == Min(|whole|, limit) && x in whole
    ensures var spare := limit - (|UpTo(whole, x)| - whole[x]);
      part[x] == if spare < 0 then 0 else Min(spare, whole[x])
  {
    var low := UpTo(whole, x)[x := part[x]];
    LowerCount(whole, x, part[x]);
    SmallerPart(part, whole);
    if part[x] < whole[x] {
      PartBelow(part, whole, x);
      SmallerPart(part, low);
    }
    if part[x] > 0 {
      PartCovers(part, whole, x);
      SmallerPart(low, part);
    }
  }

  lemma KeyAtMostItself(x: Entry)
    ensures KeyAtMost(x, x)
  {
    Ordering.AtMostTotal(EntryKey(x), EntryKey(x));
  }

  /** If a copy of `x` is left out, nothing above `x` is taken. */
  lemma PartBelow(part: multiset<Entry>, whole: multiset<Entry>, x: Entry)
    requires Lowest(part, whole) && part[x] < whole[x]
    ensures part <= UpTo(whole, x)[x := part[x]]
  {
    assert x in whole - part;
    assert forall y :: y in part ==> KeyAtMost(y, x);
  }

  /** If a copy of `x` is taken, everything below `x` is. */
  lemma PartCovers(part: multiset<Entry>, whole: multiset<Entry>, x: Entry)
    requires AllNulFree(whole) && Lowest(part, whole) && part[x] > 0
    ensures UpTo(whole, x)[x := part[x]] <= part
  {
    forall y | y != x && y in UpTo(whole, x) ensures UpTo(whole, x)[y] <= part[y] {
      if part[y] < whole[y] {
        assert y in whole - part && KeyAtMost(x, y) && KeyAtMost(y, x);
        Ordering.AtMostAntisymmetric(EntryKey(x), EntryKey(y));
        EntryKeyInjective(x, y);
      }
    }
  }

  lemma LowerCount(whole: multiset<Entry>, x: Entry, n: nat)
    requires x in whole
    ensures |UpTo(whole, x)[x := n]| == |UpTo(whole, x)| - whole[x] + n
  {
    KeyAtMostItself(x);
  }

  /** What a tier matches, and what it uses, is what the counts say. */
  lemma OutcomeIsMatched(t: Tier, e: multiset<Entry>, f: multiset<Entry>, m: multiset<Entry>, u: multiset<Entry>)
    requires TierOutcome(t, e, f, m, u) && AllNulFree(e) && AllNulFree(f)
    ensures m == Matched(t, e, f) && u == Matched(t, f, e)
  {
    forall x ensures m[x] == Share(t, e, f, x) && u[x] == Share(t, f, e, x) {
      OutcomeShare(t, e, f, m, u, x);
    }
  }

  lemma OutcomeShare(t: Tier, e: multiset<Entry>, f: multiset<Entry>, m: multiset<Entry>, u: multiset<Entry>, x: Entry)
    requires TierOutcome(t, e, f, m, u) && AllNulFree(e) && AllNulFree(f)
    ensures m[x] == Share(t, e, f, x) && u[x] == Share(t, f, e, x)
  {
    var k := TierKey(t, x);
    assert k != "" ==> PairsOff(Group(e, t, k), Group(f, t, k), Group(m, t, k), Group(u, t, k));
    assert k == "" ==> Group(m, t, k)[x] == 0 && Group(u, t, k)[x] == 0;
    hide PairsOff, Share;
    SideShare(t, e, f, m, u, x);
    SideShare(t, f, e, u, m, x);
  }

  lemma SideShare(t: Tier, a: multiset<Entry>, b: multiset<Entry>, m: multiset<Entry>, u: multiset<Entry>, x: Entry)
    requires m <= a && AllNulFree(a)
    requires var k := TierKey(t, x);
      if k == "" then Group(m, t, k)[x] == 0
      else PairsOff(Group(a, t, k), Group(b, t, k), Group(m, t, k), Group(u, t, k))
           || PairsOff(Group(b, t, k), Group(a, t, k), Group(u, t, k), Group(m, t, k))
    ensures m[x] == Share(t, a, b, x)
  {
    var k := TierKey(t, x);
    var ga, gm := Group(a, t, k), Group(m, t, k);
    assert ga[x] == a[x] && gm[x] == m[x];
    if k != "" && x in ga {
      LowestTakes(gm, ga, |Group(b, t, k)|, x);
    }
  }

  // ----- the three tiers -----

  /** The entries and findings that reach a tier. */
  datatype Offer = Offer(entries: multiset<Entry>, findings: multiset<Entry>)

  ghost function After(t: Tier, o: Offer): Offer {
    Offer(o.entries - Matched(t, o.entries, o.findings), o.findings - Matched(t, o.findings, o.entries))
  }

  /** What reaches each tier, as a function of the two files' multisets alone. */
  ghost function OfferAt(t: Tier, e: multiset<Entry>, f: multiset<Entry>): Offer {
    match t
    case Exact => Offer(e, f)
    case Context => After(Exact, Offer(e, f))
    case Content => After(Context, After(Exact, Offer(e, f)))
  }

  /** The tier's supply for the key of `x` runs out before the last copy of `x`, or `x` has no key there. */
  ghost predicate PassesOver(t: Tier, o: Offer, x: Entry) {
    TierKey(t, x) == "" || Rank(t, o.entries, x) > Supply(t, o.findings, x)
  }

  lemma LeftByTier(t: Tier, o: Offer, x: Entry)
    ensures After(t, o).entries[x] > 0 <==> o.entries[x] > 0 && PassesOver(t, o, x)
  {
    NotAllShared(t, o.entries, o.findings, x);
    hide Share, Rank, Supply;
    var m := Matched(t, o.entries, o.findings);
    assert m[x] == Share(t, o.entries, o.findings, x);
    hide Matched;
  }

  lemma NotAllShared(t: Tier, a: multiset<Entry>, b: multiset<Entry>, x: Entry)
    ensures Share(t, a, b, x) < a[x] <==> a[x] > 0 && (TierKey(t, x) == "" || Rank(t, a, x) > Supply(t, b, x))
  {
    hide Rank, Supply;
  }

  lemma TierFollowsOffer(t: Tier, e: multiset<Entry>, f: multiset<Entry>, m: multiset<Entry>, u: multiset<Entry>)
    requires TierOutcome(t, e, f, m, u) && AllNulFree(e) && AllNulFree(f)
    ensures After(t, Offer(e, f)) == Offer(e - m, f - u)
  {
    OutcomeIsMatched(t, e, f, m, u);
  }

  /** A settlement hands every tier what the counts say. */
  lemma SettlementFollowsOffers(e: multiset<Entry>, f: multiset<Entry>, s: Settlement)
    requires Settles(e, f, s) && AllNulFree(e) && AllNulFree(f)
    ensures OfferAt(Context, e, f) == Offer(e - s.exact, f - s.exactUsed)
    ensures OfferAt(Content, e, f) == Offer(e - s.exact - s.context, f - s.exactUsed - s.contextUsed)
    ensures After(Content, OfferAt(Content, e, f)).entries == e - s.exact - s.context - s.content
  {
    hide TierOutcome, After;
    TierFollowsOffer(Exact, e, f, s.exact, s.exactUsed);
    TierFollowsOffer(Context, e - s.exact, f - s.exactUsed, s.context, s.contextUsed);
    TierFollowsOffer(Content, e - s.exact - s.context, f - s.exactUsed - s.contextUsed, s.content, s.contentUsed);
  }

  /** Every tier passes the last copy of `x` over. */
  ghost predicate Outnumbered(e: multiset<Entry>, f: multiset<Entry>, x: Entry) {
    forall t :: PassesOver(t, OfferAt(t, e, f), x)
  }

  /** A copy of `x` is left over in the end if and only if every tier passes the last copy over. */
  lemma LeftOverIff(e: multiset<Entry>, f: multiset<Entry>, s: Settlement, x: Entry)
    requires Settles(e, f, s) && AllNulFree(e) && AllNulFree(f)
    ensures (e - s.exact - s.context - s.content)[x] > 0 <==> x in e && Outnumbered(e, f, x)
  {
    SettlementFollowsOffers(e, f, s);
    OfferChain(e, f);
    OutnumberedIff(e, f, x);
    hide Settles, After, PassesOver, OfferAt, Outnumbered;
    LeftByTier(Exact, OfferAt(Exact, e, f), x);
    LeftByTier(Context, OfferAt(Context, e, f), x);
    LeftByTier(Content, OfferAt(Content, e, f), x);
  }

  lemma OfferChain(e: multiset<Entry>, f: multiset<Entry>)
    ensures OfferAt(Exact, e, f) == Offer(e, f)
    ensures OfferAt(Context, e, f) == After(Exact, OfferAt(Exact, e, f))
    ensures OfferAt(Content, e, f) == After(Context, OfferAt(Context, e, f))
  {
    hide After;
  }

  lemma OutnumberedIff(e: multiset<Entry>, f: multiset<Entry>, x: Entry)
    ensures Outnumbered(e, f, x) <==>
      && PassesOver(Exact, OfferAt(Exact, e, f), x) && PassesOver(Context, OfferAt(Context, e, f), x)
      && PassesOver(Content, OfferAt(Content, e, f), x)
  {
    hide PassesOver, OfferAt;
    forall t: Tier
      ensures PassesOver(t, OfferAt(t, e, f), x)
           || !PassesOver(Exact, OfferAt(Exact, e, f), x) || !PassesOver(Context, OfferAt(Context, e, f), x)
           || !PassesOver(Content, OfferAt(Content, e, f), x)
    {
      match t
      case Exact =>
      case Context =>
      case Content =>
    }
  }
}
