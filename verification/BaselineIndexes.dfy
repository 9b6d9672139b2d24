/** Sets of positions in a list and the multiset of elements they select: the bridge from
    the index bookkeeping of `matchBaselineEntries` to `BaselineTiers`. */
module BaselineIndexes {
  import opened BaselineTiers

  ghost predicate InRange(s: set<nat>, items: seq<Entry>) {
    forall i <- s :: i < |items|
  }

  ghost function Elements(items: seq<Entry>, s: set<nat>): multiset<Entry> {
    if items == [] then multiset{}
    else
      var n := |items| - 1;
      Elements(items[..n], s) + (if n in s then multiset{items[n]} else multiset{})
  }

  lemma {:induction false} ElementsOfUnion(items: seq<Entry>, s: set<nat>, t: set<nat>)
    requires s !! t
    ensures Elements(items, s + t) == Elements(items, s) + Elements(items, t)
  {
    if items != [] {
      ElementsOfUnion(items[..|items| - 1], s, t);
    }
  }

  lemma ElementsOfDifference(items: seq<Entry>, s: set<nat>, t: set<nat>)
    requires t <= s
    ensures Elements(items, t) <= Elements(items, s)
    ensures Elements(items, s - t) == Elements(items, s) - Elements(items, t)
  {
    ElementsOfUnion(items, t, s - t);
    assert t + (s - t) == s;
  }

  lemma {:induction false} ElementsMember(items: seq<Entry>, s: set<nat>, e: Entry)
    ensures e in Elements(items, s) <==> exists i :: i in s && i < |items| && items[i] == e
  {
    if items != [] {
      var n := |items| - 1;
      ElementsMember(items[..n], s, e);
      if n in s && items[n] == e {
        assert e in Elements(items, s);
      } else if e in Elements(items[..n], s) {
        var i :| i in s && i < n && items[..n][i] == e;
        assert items[i] == e;
      }
    }
  }

  lemma {:induction false} ElementsAll(items: seq<Entry>, s: set<nat>)
    requires forall i :: 0 <= i < |items| ==> i in s
    ensures Elements(items, s) == multiset(items)
  {
    if items != [] {
      ElementsAll(items[..|items| - 1], s);
      assert items == items[..|items| - 1] + [items[|items| - 1]];
    }
  }

  lemma {:induction false} ElementsSize(items: seq<Entry>, s: set<nat>)
    requires InRange(s, items)
    ensures |Elements(items, s)| == |s|
  {
    if items == [] {
      assert s == {};
    } else {
      var n := |items| - 1;
      ElementsRestrict(items[..n], s, s - {n});
      ElementsSize(items[..n], s - {n});
      if n in s {
        assert |s| == |s - {n}| + 1;
      } else {
        assert s == s - {n};
      }
    }
  }

  lemma {:induction false} ElementsRestrict(items: seq<Entry>, s: set<nat>, t: set<nat>)
    requires forall i :: 0 <= i < |items| ==> (i in s <==> i in t)
    ensures Elements(items, s) == Elements(items, t)
  {
    if items != [] {
      ElementsRestrict(items[..|items| - 1], s, t);
    }
  }

  /** The positions of `s` whose key at tier `t` is `k`. */
  ghost function Keyed(items: seq<Entry>, s: set<nat>, t: Tier, k: string): set<nat> {
    set i | i in s && i < |items| && TierKey(t, items[i]) == k
  }

  lemma {:induction false} ElementsKeyedCount(items: seq<Entry>, s: set<nat>, t: Tier, k: string, e: Entry)
    ensures Elements(items, Keyed(items, s, t, k))[e] == if TierKey(t, e) == k then Elements(items, s)[e] else 0
  {
    if items != [] {
      var n := |items| - 1;
      var init := items[..n];
      ElementsKeyedCount(init, s, t, k, e);
      ElementsRestrict(init, Keyed(items, s, t, k), Keyed(init, s, t, k));
    }
  }

  lemma ElementsKeyed(items: seq<Entry>, s: set<nat>, t: Tier, k: string)
    ensures Elements(items, Keyed(items, s, t, k)) == Group(Elements(items, s), t, k)
  {
    forall e ensures Elements(items, Keyed(items, s, t, k))[e] == Group(Elements(items, s), t, k)[e] {
      ElementsKeyedCount(items, s, t, k, e);
    }
  }

  /** `part` is chosen from `whole` lowest key first. */
  ghost predicate LowestPositions(items: seq<Entry>, part: set<nat>, whole: set<nat>) {
    && part <= whole && InRange(whole, items)
    && forall i, j :: i in part && j in whole - part ==> KeyAtMost(items[i], items[j])
  }

  lemma LowestPositionsSelectLowest(items: seq<Entry>, part: set<nat>, whole: set<nat>)
    requires LowestPositions(items, part, whole)
    ensures Lowest(Elements(items, part), Elements(items, whole))
  {
    ElementsOfDifference(items, whole, part);
    forall x, y | x in Elements(items, part) && y in Elements(items, whole) - Elements(items, part)
      ensures KeyAtMost(x, y)
    {
      ElementsMember(items, part, x);
      ElementsMember(items, whole - part, y);
    }
  }

  /** What `MatchTier` establishes about one key. */
  ghost predicate KeyPairsOff(t: Tier, k: string, entries: seq<Entry>, e: set<nat>, ids: seq<Entry>, f: set<nat>,
                              m: set<nat>, u: set<nat>)
  {
    && |Keyed(entries, m, t, k)| == |Keyed(ids, u, t, k)|
       == Min(|Keyed(entries, e, t, k)|, |Keyed(ids, f, t, k)|)
    && LowestPositions(entries, Keyed(entries, m, t, k), Keyed(entries, e, t, k))
    && LowestPositions(ids, Keyed(ids, u, t, k), Keyed(ids, f, t, k))
  }

  ghost predicate PositionOutcome(t: Tier, entries: seq<Entry>, e: set<nat>, ids: seq<Entry>, f: set<nat>,
                                  m: set<nat>, u: set<nat>)
  {
    && m <= e && InRange(e, entries) && u <= f && InRange(f, ids)
    && Keyed(entries, m, t, "") == {} && Keyed(ids, u, t, "") == {}
    && forall k :: k != "" ==> KeyPairsOff(t, k, entries, e, ids, f, m, u)
  }

  lemma {:induction false} ElementsOfNothing(items: seq<Entry>)
    ensures Elements(items, {}) == multiset{}
  {
    if items != [] {
      ElementsOfNothing(items[..|items| - 1]);
    }
  }

  lemma KeyPairsOffElements(t: Tier, k: string, entries: seq<Entry>, e: set<nat>, ids: seq<Entry>, f: set<nat>,
                            m: set<nat>, u: set<nat>)
    requires KeyPairsOff(t, k, entries, e, ids, f, m, u)
    ensures PairsOff(Group(Elements(entries, e), t, k), Group(Elements(ids, f), t, k),
                     Group(Elements(entries, m), t, k), Group(Elements(ids, u), t, k))
  {
    ElementsKeyed(entries, e, t, k);
    ElementsKeyed(entries, m, t, k);
    ElementsKeyed(ids, f, t, k);
    ElementsKeyed(ids, u, t, k);
    ElementsSize(entries, Keyed(entries, e, t, k));
    ElementsSize(entries, Keyed(entries, m, t, k));
    ElementsSize(ids, Keyed(ids, f, t, k));
    ElementsSize(ids, Keyed(ids, u, t, k));
    LowestPositionsSelectLowest(entries, Keyed(entries, m, t, k), Keyed(entries, e, t, k));
    LowestPositionsSelectLowest(ids, Keyed(ids, u, t, k), Keyed(ids, f, t, k));
  }

  /** A tier that pairs positions off key by key has the multiset outcome of that tier. */
  lemma PositionsSettleTier(t: Tier, entries: seq<Entry>, e: set<nat>, ids: seq<Entry>, f: set<nat>,
                            m: set<nat>, u: set<nat>)
    requires PositionOutcome(t, entries, e, ids, f, m, u)
    ensures TierOutcome(t, Elements(entries, e), Elements(ids, f), Elements(entries, m), Elements(ids, u))
  {
    ElementsOfDifference(entries, e, m);
    ElementsOfDifference(ids, f, u);
    ElementsKeyed(entries, m, t, "");
    ElementsKeyed(ids, u, t, "");
    ElementsOfNothing(entries);
    ElementsOfNothing(ids);
    forall k | k != ""
      ensures PairsOff(Group(Elements(entries, e), t, k), Group(Elements(ids, f), t, k),
                       Group(Elements(entries, m), t, k), Group(Elements(ids, u), t, k))
    {
      KeyPairsOffElements(t, k, entries, e, ids, f, m, u);
    }
  }
}
