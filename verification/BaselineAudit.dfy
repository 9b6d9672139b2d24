/** `baseline_audit.go`: the three-tier one-to-one matching of baseline entries to findings. */
module BaselineAudit {
  import opened BaselineTiers
  import opened BaselineIndexes
  import opened Sequences

  /** The fields of `core.Finding` that the audit reads. */
  datatype Finding = Finding(
    fingerprint: string,
    contextFingerprint: string,
    contentFingerprint: string,
    ruleID: string,
    path: string,
    message: string,
    line: int,
    confidence: string)

  /** The six fields `findingKey` joins; `findingKey(f)` is `EntryKey(Identity(f))`. */
  function Identity(f: Finding): Entry {
    Entry(f.fingerprint, f.contextFingerprint, f.contentFingerprint, f.ruleID, f.path, f.message)
  }

  function Identities(findings: seq<Finding>): (ids: seq<Entry>)
    ensures |ids| == |findings|
    ensures forall i :: 0 <= i < |ids| ==> ids[i] == Identity(findings[i])
  {
    seq(|findings|, i requires 0 <= i < |findings| => Identity(findings[i]))
  }

  datatype Match = Match(finding: nat, tier: Tier)

  /** The entries matched at tier `t`, and the findings they use. */
  ghost function MatchedAt(matches: map<nat, Match>, t: Tier): set<nat> {
    set i | i in matches && matches[i].tier == t
  }

  ghost function UsedAt(matches: map<nat, Match>, t: Tier): set<nat> {
    set i | i in matches && matches[i].tier == t :: matches[i].finding
  }

  ghost function ValidPositions(entries: seq<Entry>): set<nat> {
    set i: nat | i < |entries| && Valid(entries[i])
  }

  ghost function Positions(n: nat): (s: set<nat>)
    ensures forall i: nat :: i in s <==> i < n
  {
    if n == 0 then {} else Positions(n - 1) + {n - 1}
  }

  ghost predicate Injective(matches: map<nat, Match>) {
    forall i, j :: i in matches && j in matches && i != j ==> matches[i].finding != matches[j].finding
  }

  /** The complete specification of `matchBaselineEntries`. */
  ghost predicate Reconciled(entries: seq<Entry>, findings: seq<Finding>, matches: map<nat, Match>) {
    var ids := Identities(findings);
    var e0, f0 := ValidPositions(entries), Positions(|findings|);
    var m1, u1 := MatchedAt(matches, Exact), UsedAt(matches, Exact);
    var m2, u2 := MatchedAt(matches, Context), UsedAt(matches, Context);
    && Injective(matches)
    && (forall i <- matches :: i < |entries| && matches[i].finding < |findings|
         && TierKey(matches[i].tier, entries[i]) == TierKey(matches[i].tier, ids[matches[i].finding]))
    && PositionOutcome(Exact, entries, e0, ids, f0, m1, u1)
    && PositionOutcome(Context, entries, e0 - m1, ids, f0 - u1, m2, u2)
    && PositionOutcome(Content, entries, e0 - m1 - m2, ids, f0 - u1 - u2,
                       MatchedAt(matches, Content), UsedAt(matches, Content))
  }

  /** `groups` lists, without repetition, the positions below `n` that are not skipped,
      each under its nonempty tier key. */
  ghost predicate GroupsUpTo(t: Tier, items: seq<Entry>, skip: seq<bool>, groups: map<string, seq<nat>>, n: nat)
    requires |skip| == |items| && n <= |items|
  {
    && "" !in groups
    && (forall k <- groups :: NoDuplicates(groups[k]))
    && (forall k <- groups :: ListsOnly(t, items, skip, groups[k], k, n))
    && (forall i: nat :: i < n && !skip[i] && TierKey(t, items[i]) != "" ==> Listed(groups, TierKey(t, items[i]), i))
  }

  ghost predicate ListsOnly(t: Tier, items: seq<Entry>, skip: seq<bool>, group: seq<nat>, k: string, n: nat)
    requires |skip| == |items| && n <= |items|
  {
    forall p :: 0 <= p < |group| ==> group[p] < n && !skip[group[p]] && TierKey(t, items[group[p]]) == k
  }

  predicate Listed(groups: map<string, seq<nat>>, k: string, i: nat) {
    k in groups && i in groups[k]
  }

  function GroupOf(groups: map<string, seq<nat>>, k: string): seq<nat> {
    if k in groups then groups[k] else []
  }

  /** One group grows by the position at hand. */
  lemma GroupGrows(t: Tier, items: seq<Entry>, skip: seq<bool>, group: seq<nat>, k: string, n: nat)
    requires |skip| == |items| && n < |items| && NoDuplicates(group) && ListsOnly(t, items, skip, group, k, n)
    ensures ListsOnly(t, items, skip, group, k, n + 1)
    ensures !skip[n] && TierKey(t, items[n]) == k ==> NoDuplicates(group + [n]) && ListsOnly(t, items, skip, group + [n], k, n + 1)
  {
  }

  lemma ListedStays(groups: map<string, seq<nat>>, k: string, n: nat)
    ensures var grown := groups[k := GroupOf(groups, k) + [n]];
      Listed(grown, k, n) && forall l, i :: Listed(groups, l, i) ==> Listed(grown, l, i)
  {
  }

  lemma GroupsNext(t: Tier, items: seq<Entry>, skip: seq<bool>, groups: map<string, seq<nat>>, n: nat)
    requires |skip| == |items| && n < |items| && GroupsUpTo(t, items, skip, groups, n)
    ensures var key := TierKey(t, items[n]);
      if skip[n] || key == "" then GroupsUpTo(t, items, skip, groups, n + 1)
      else GroupsUpTo(t, items, skip, groups[key := GroupOf(groups, key) + [n]], n + 1)
  {
    var key := TierKey(t, items[n]);
    forall k <- groups ensures ListsOnly(t, items, skip, groups[k], k, n + 1) {
      GroupGrows(t, items, skip, groups[k], k, n);
    }
    GroupGrows(t, items, skip, GroupOf(groups, key), key, n);
    ListedStays(groups, key, n);
    hide TierKey, ListsOnly, NoDuplicates, Listed;
  }

  /** The two grouping loops. */
  method GroupByKey(t: Tier, items: seq<Entry>, skip: seq<bool>) returns (groups: map<string, seq<nat>>)
    requires |skip| == |items|
    ensures GroupsUpTo(t, items, skip, groups, |items|)
  {
    groups := map[];
    for n := 0 to |items|
      invariant GroupsUpTo(t, items, skip, groups, n)
    {
      GroupsNext(t, items, skip, groups, n);
      hide GroupsUpTo;
      var key := TierKey(t, items[n]);
      if !skip[n] && key != "" {
        groups := groups[key := GroupOf(groups, key) + [n]];
      }
    }
  }

  /** `es` and `fs` list a key's candidates in key order; the first `limit` of each pair off. */
  method PairInOrder(t: Tier, es: seq<nat>, fs: seq<nat>, limit: nat, before: map<nat, Match>, used: array<bool>)
    returns (matches: map<nat, Match>)
    requires NoDuplicates(es) && NoDuplicates(fs)
    requires limit <= |es| && limit <= |fs|
    requires forall f <- fs :: f < used.Length
    requires Members(es) !! before.Keys
    modifies used
    ensures matches.Keys == before.Keys + Members(es[..limit])
    ensures forall i <- before :: matches[i] == before[i]
    ensures forall p :: 0 <= p < limit ==> es[p] in matches && matches[es[p]] == Match(fs[p], t)
    ensures forall j :: 0 <= j < used.Length ==> used[j] == (old(used[j]) || j in Members(fs[..limit]))
  {
    matches := before;
    for pair := 0 to limit
      invariant matches.Keys == before.Keys + Members(es[..pair])
      invariant forall i <- before :: matches[i] == before[i]
      invariant forall p :: 0 <= p < pair ==> es[p] in matches && matches[es[p]] == Match(fs[p], t)
      invariant forall j :: 0 <= j < used.Length ==> used[j] == (old(used[j]) || j in Members(fs[..pair]))
    {
      assert es[pair] in Members(es) && fs[pair] in fs;
      matches := matches[es[pair] := Match(fs[pair], t)];
      used[fs[pair]] := true;
      assert es[..pair + 1] == es[..pair] + [es[pair]] && fs[..pair + 1] == fs[..pair] + [fs[pair]];
    }
  }

  ghost predicate KeySorted(items: seq<Entry>, s: seq<nat>) {
    && (forall p :: 0 <= p < |s| ==> s[p] < |items|)
    && forall p, q :: 0 <= p < q < |s| ==> KeyAtMost(items[s[p]], items[s[q]])
  }

  /** `sort.Slice` of positions by the joined key of the element there. */
  method SortPositions(items: seq<Entry>, s: seq<nat>) returns (sorted: seq<nat>)
    requires NoDuplicates(s) && InRange(Members(s), items)
    ensures NoDuplicates(sorted) && Members(sorted) == Members(s) && |sorted| == |s|
    ensures KeySorted(items, sorted)
  {
    var order := (i: nat) => if i < |items| then EntryKey(items[i]) else "";
    Ordering.ByKeyIsPreorder(order);
    var le := Ordering.ByKey(order);
    sorted := Ordering.Sort(s, le);
    PermutationKeepsDistinct(s, sorted);
    assert forall p :: 0 <= p < |sorted| ==> sorted[p] in Members(sorted);
    assert forall p, q :: 0 <= p < q < |sorted| ==> le(sorted[p], sorted[q]);
  }

  /** The findings that the positions `m` are matched to. */
  ghost function Image(matches: map<nat, Match>, m: set<nat>): set<nat> {
    set i | i in m && i in matches :: matches[i].finding
  }

  /** `matches` is `before` with the positions `m` newly matched at tier `t`, one to one, to the findings `u`. */
  ghost predicate PairsAdded(t: Tier, before: map<nat, Match>, matches: map<nat, Match>, m: set<nat>, u: set<nat>) {
    && matches.Keys == before.Keys + m
    && (forall i <- before :: matches[i] == before[i])
    && (forall i <- m :: matches[i].tier == t)
    && u == Image(matches, m)
    && (forall i, j :: i in m && j in m && i != j ==> matches[i].finding != matches[j].finding)
  }

  lemma PairsAddedCompose(t: Tier, before: map<nat, Match>, mid: map<nat, Match>, matches: map<nat, Match>,
                          m: set<nat>, u: set<nat>, gm: set<nat>, gu: set<nat>)
    requires PairsAdded(t, before, mid, m, u) && PairsAdded(t, mid, matches, gm, gu)
    requires m !! before.Keys && gm !! mid.Keys && gu !! u
    ensures PairsAdded(t, before, matches, m + gm, u + gu)
  {
    assert forall i <- m :: matches[i] == mid[i];
    assert Image(matches, m) == Image(mid, m);
    assert Image(matches, m + gm) == Image(matches, m) + Image(matches, gm);
    forall i, j | i in m + gm && j in m + gm && i != j ensures matches[i].finding != matches[j].finding {
      assert i in m ==> matches[i].finding in Image(mid, m);
      assert j in m ==> matches[j].finding in Image(mid, m);
      assert i in gm ==> matches[i].finding in Image(matches, gm);
      assert j in gm ==> matches[j].finding in Image(matches, gm);
    }
  }

  lemma PairsOneToOne(t: Tier, es: seq<nat>, fs: seq<nat>, before: map<nat, Match>, matches: map<nat, Match>)
    requires NoDuplicates(es) && NoDuplicates(fs) && |es| == |fs|
    requires matches.Keys == before.Keys + Members(es)
    requires forall i <- before :: i in matches && matches[i] == before[i]
    requires forall p :: 0 <= p < |es| ==> es[p] in matches && matches[es[p]] == Match(fs[p], t)
    ensures PairsAdded(t, before, matches, Members(es), Members(fs))
  {
    var m, u := Members(es), Members(fs);
    forall i <- m ensures exists p :: 0 <= p < |es| && es[p] == i && matches[i] == Match(fs[p], t) {
      var p :| 0 <= p < |es| && es[p] == i;
    }
    forall f <- u ensures f in Image(matches, m) {
      var p :| 0 <= p < |fs| && fs[p] == f;
      assert es[p] in m && matches[es[p]].finding == f;
    }
    forall f <- Image(matches, m) ensures f in u {
      var i :| i in m && i in matches && matches[i].finding == f;
      var p :| 0 <= p < |es| && es[p] == i && matches[i] == Match(fs[p], t);
    }
    assert u == Image(matches, m);
    forall i, j | i in m && j in m && i != j ensures matches[i].finding != matches[j].finding {
      var p :| 0 <= p < |es| && es[p] == i && matches[i] == Match(fs[p], t);
      var q :| 0 <= q < |es| && es[q] == j && matches[j] == Match(fs[q], t);
    }
  }

  lemma PrefixPairs(t: Tier, es: seq<nat>, fs: seq<nat>, limit: nat, before: map<nat, Match>, matches: map<nat, Match>)
    requires NoDuplicates(es) && NoDuplicates(fs) && limit <= |es| && limit <= |fs|
    requires matches.Keys == before.Keys + Members(es[..limit])
    requires forall i <- before :: i in matches && matches[i] == before[i]
    requires forall p :: 0 <= p < limit ==> es[p] in matches && matches[es[p]] == Match(fs[p], t)
    ensures PairsAdded(t, before, matches, Members(es[..limit]), Members(fs[..limit]))
  {
    var a, b := es[..limit], fs[..limit];
    assert NoDuplicates(a) && NoDuplicates(b);
    assert forall p :: 0 <= p < limit ==> a[p] in matches && matches[a[p]] == Match(b[p], t);
    PairsOneToOne(t, a, b, before, matches);
  }

  /** The body of the loop over a tier's keys. */
  method MatchGroup(t: Tier, entries: seq<Entry>, ids: seq<Entry>, es: seq<nat>, fs: seq<nat>,
                    before: map<nat, Match>, used: array<bool>)
    returns (matches: map<nat, Match>, ghost m: set<nat>, ghost u: set<nat>)
    requires used.Length == |ids|
    requires NoDuplicates(es) && NoDuplicates(fs)
    requires InRange(Members(es), entries) && InRange(Members(fs), ids)
    requires Members(es) !! before.Keys
    modifies used
    ensures |m| == |u| == Min(|Members(es)|, |Members(fs)|)
    ensures LowestPositions(entries, m, Members(es)) && LowestPositions(ids, u, Members(fs))
    ensures PairsAdded(t, before, matches, m, u)
    ensures forall j :: 0 <= j < used.Length ==> used[j] == (old(used[j]) || j in u)
  {
    var es' := SortPositions(entries, es);
    var fs' := SortPositions(ids, fs);
    var limit := Min(|es'|, |fs'|);
    assert forall f <- fs' :: f in Members(fs');
    matches := PairInOrder(t, es', fs', limit, before, used);
    PrefixPairs(t, es', fs', limit, before, matches);
    PrefixIsLowest(entries, es', limit);
    PrefixIsLowest(ids, fs', limit);
    m, u := Members(es'[..limit]), Members(fs'[..limit]);
  }

  lemma PrefixIsLowest(items: seq<Entry>, sorted: seq<nat>, limit: nat)
    requires limit <= |sorted| && NoDuplicates(sorted) && KeySorted(items, sorted)
    ensures |Members(sorted)| == |sorted| && |Members(sorted[..limit])| == limit
    ensures LowestPositions(items, Members(sorted[..limit]), Members(sorted))
  {
    MembersSize(sorted);
    MembersSize(sorted[..limit]);
    forall i, j | i in Members(sorted[..limit]) && j in Members(sorted) - Members(sorted[..limit])
      ensures i < |items| && j < |items| && KeyAtMost(items[i], items[j])
    {
      var p :| 0 <= p < limit && sorted[..limit][p] == i;
      assert sorted == sorted[..limit] + sorted[limit..];
      assert j in sorted[limit..];
      var q :| limit <= q < |sorted| && sorted[q] == j;
      assert sorted[p] == i;
    }
  }

  /** The state of the loop over a tier's keys once every key outside `todo` is done. */
  ghost predicate TierProgress(t: Tier, entries: seq<Entry>, e: set<nat>, ids: seq<Entry>, f: set<nat>,
                               done: set<string>, m: set<nat>, u: set<nat>)
  {
    && m <= e && InRange(e, entries) && u <= f && InRange(f, ids) && "" !in done
    && KeysIn(t, entries, m, done) && KeysIn(t, ids, u, done)
    && AllPairOff(t, entries, e, ids, f, done, m, u)
  }

  ghost predicate KeysIn(t: Tier, items: seq<Entry>, s: set<nat>, keys: set<string>) {
    forall i <- s :: i < |items| && TierKey(t, items[i]) in keys
  }

  ghost predicate AllPairOff(t: Tier, entries: seq<Entry>, e: set<nat>, ids: seq<Entry>, f: set<nat>,
                             keys: set<string>, m: set<nat>, u: set<nat>)
  {
    forall k <- keys :: KeyPairsOff(t, k, entries, e, ids, f, m, u)
  }

  lemma OtherKeysUntouched(items: seq<Entry>, m: set<nat>, gm: set<nat>, t: Tier, k: string, k': string)
    requires k != k'
    requires forall i <- gm :: i < |items| && TierKey(t, items[i]) == k
    ensures Keyed(items, m + gm, t, k') == Keyed(items, m, t, k')
  {
  }

  lemma OwnKeyExact(items: seq<Entry>, m: set<nat>, gm: set<nat>, t: Tier, k: string)
    requires forall i <- m :: i < |items| && TierKey(t, items[i]) != k
    requires forall i <- gm :: i < |items| && TierKey(t, items[i]) == k
    ensures Keyed(items, m + gm, t, k) == gm
  {
  }

  lemma KeyDone(t: Tier, entries: seq<Entry>, e: set<nat>, ids: seq<Entry>, f: set<nat>,
                done: set<string>, m: set<nat>, u: set<nat>, k: string, gm: set<nat>, gu: set<nat>)
    requires TierProgress(t, entries, e, ids, f, done, m, u) && k !in done && k != ""
    requires LowestPositions(entries, gm, Keyed(entries, e, t, k)) && LowestPositions(ids, gu, Keyed(ids, f, t, k))
    requires |gm| == |gu| == Min(|Keyed(entries, e, t, k)|, |Keyed(ids, f, t, k)|)
    ensures TierProgress(t, entries, e, ids, f, done + {k}, m + gm, u + gu)
  {
    hide KeysIn, AllPairOff, KeyPairsOff, LowestPositions, Keyed, InRange, Min, TierKey;
    OwnKeyDone(t, entries, e, ids, f, done, m, u, k, gm, gu);
    OthersStayDone(t, entries, e, ids, f, done, m, u, k, gm, gu);
    OneMorePairsOff(t, entries, e, ids, f, done, m + gm, u + gu, k);
    LowestAreKeyed(t, entries, e, gm, k);
    LowestAreKeyed(t, ids, f, gu, k);
    KeysGrow(t, entries, m, gm, done, k);
    KeysGrow(t, ids, u, gu, done, k);
  }

  lemma KeysGrow(t: Tier, items: seq<Entry>, s: set<nat>, part: set<nat>, keys: set<string>, k: string)
    requires KeysIn(t, items, s, keys) && forall i <- part :: i < |items| && TierKey(t, items[i]) == k
    ensures KeysIn(t, items, s + part, keys + {k})
  {
    hide TierKey;
  }

  lemma OneMorePairsOff(t: Tier, entries: seq<Entry>, e: set<nat>, ids: seq<Entry>, f: set<nat>,
                        keys: set<string>, m: set<nat>, u: set<nat>, k: string)
    requires AllPairOff(t, entries, e, ids, f, keys, m, u) && KeyPairsOff(t, k, entries, e, ids, f, m, u)
    ensures AllPairOff(t, entries, e, ids, f, keys + {k}, m, u)
  {
    hide KeyPairsOff;
  }

  lemma LowestAreKeyed(t: Tier, items: seq<Entry>, s: set<nat>, part: set<nat>, k: string)
    requires LowestPositions(items, part, Keyed(items, s, t, k))
    ensures part <= s && forall i <- part :: i < |items| && TierKey(t, items[i]) == k
  {
    assert forall i <- part :: i in Keyed(items, s, t, k);
  }

  lemma OthersStayDone(t: Tier, entries: seq<Entry>, e: set<nat>, ids: seq<Entry>, f: set<nat>,
                       done: set<string>, m: set<nat>, u: set<nat>, k: string, gm: set<nat>, gu: set<nat>)
    requires TierProgress(t, entries, e, ids, f, done, m, u) && k !in done
    requires LowestPositions(entries, gm, Keyed(entries, e, t, k)) && LowestPositions(ids, gu, Keyed(ids, f, t, k))
    ensures AllPairOff(t, entries, e, ids, f, done, m + gm, u + gu)
  {
    assert gm <= Keyed(entries, e, t, k) && gu <= Keyed(ids, f, t, k);
    hide KeyPairsOff, LowestPositions, Keyed;
    forall k' <- done ensures KeyPairsOff(t, k', entries, e, ids, f, m + gm, u + gu) {
      OtherKeyDone(t, entries, e, ids, f, m, u, k, gm, gu, k');
    }
  }

  lemma OwnKeyDone(t: Tier, entries: seq<Entry>, e: set<nat>, ids: seq<Entry>, f: set<nat>,
                   done: set<string>, m: set<nat>, u: set<nat>, k: string, gm: set<nat>, gu: set<nat>)
    requires TierProgress(t, entries, e, ids, f, done, m, u) && k !in done
    requires LowestPositions(entries, gm, Keyed(entries, e, t, k)) && LowestPositions(ids, gu, Keyed(ids, f, t, k))
    requires |gm| == |gu| == Min(|Keyed(entries, e, t, k)|, |Keyed(ids, f, t, k)|)
    ensures KeyPairsOff(t, k, entries, e, ids, f, m + gm, u + gu)
  {
    assert forall i <- gm :: i in Keyed(entries, e, t, k);
    assert forall j <- gu :: j in Keyed(ids, f, t, k);
    OwnKeyExact(entries, m, gm, t, k);
    OwnKeyExact(ids, u, gu, t, k);
  }

  lemma OtherKeyDone(t: Tier, entries: seq<Entry>, e: set<nat>, ids: seq<Entry>, f: set<nat>, m: set<nat>, u: set<nat>,
                     k: string, gm: set<nat>, gu: set<nat>, k': string)
    requires InRange(e, entries) && InRange(f, ids) && InRange(m, entries) && InRange(u, ids) && k' != k
    requires gm <= Keyed(entries, e, t, k) && gu <= Keyed(ids, f, t, k)
    requires KeyPairsOff(t, k', entries, e, ids, f, m, u)
    ensures KeyPairsOff(t, k', entries, e, ids, f, m + gm, u + gu)
  {
    assert forall i <- gm :: i in Keyed(entries, e, t, k);
    assert forall j <- gu :: j in Keyed(ids, f, t, k);
    OtherKeysUntouched(entries, m, gm, t, k, k');
    OtherKeysUntouched(ids, u, gu, t, k, k');
  }

  lemma AllKeysDone(t: Tier, entries: seq<Entry>, e: set<nat>, ids: seq<Entry>, f: set<nat>,
                    done: set<string>, m: set<nat>, u: set<nat>)
    requires TierProgress(t, entries, e, ids, f, done, m, u)
    requires forall i <- e :: TierKey(t, entries[i]) != "" ==> TierKey(t, entries[i]) in done
    ensures PositionOutcome(t, entries, e, ids, f, m, u)
  {
    forall k | k != "" ensures KeyPairsOff(t, k, entries, e, ids, f, m, u) {
      if k !in done {
        assert Keyed(entries, e, t, k) == {} && Keyed(entries, m, t, k) == {} && Keyed(ids, u, t, k) == {};
      }
    }
  }

  /** Matched positions agree with their finding on the tier's key. */
  ghost predicate KeysAgree(t: Tier, entries: seq<Entry>, ids: seq<Entry>, matches: map<nat, Match>, m: set<nat>) {
    forall i <- m :: i < |entries| && i in matches && matches[i].finding < |ids|
      && TierKey(t, entries[i]) == TierKey(t, ids[matches[i].finding])
  }

  lemma GroupKeysAgree(t: Tier, entries: seq<Entry>, ids: seq<Entry>, es: set<nat>, fs: set<nat>, k: string,
                       mid: map<nat, Match>, matches: map<nat, Match>, m: set<nat>, gm: set<nat>, gu: set<nat>)
    requires KeysAgree(t, entries, ids, mid, m) && PairsAdded(t, mid, matches, gm, gu) && gm <= es && gu <= fs
    requires forall i <- es :: i < |entries| && TierKey(t, entries[i]) == k
    requires forall j <- fs :: j < |ids| && TierKey(t, ids[j]) == k
    ensures KeysAgree(t, entries, ids, matches, m + gm)
  {
    forall i <- gm ensures matches[i].finding in fs {
      assert matches[i].finding in Image(matches, gm);
    }
  }

  lemma GroupIsKeyed(t: Tier, items: seq<Entry>, skip: seq<bool>, groups: map<string, seq<nat>>, s: set<nat>, k: string)
    requires |skip| == |items| && GroupsUpTo(t, items, skip, groups, |items|)
    requires forall i: nat :: i in s <==> i < |items| && !skip[i]
    requires k != ""
    ensures var g := GroupOf(groups, k);
      NoDuplicates(g) && Members(g) == Keyed(items, s, t, k)
  {
    var g := GroupOf(groups, k);
    forall i ensures i in Members(g) <==> i in Keyed(items, s, t, k) {
      if i in s && i < |items| && TierKey(t, items[i]) == k {
        assert Listed(groups, k, i);
      }
    }
  }

  lemma TierStep(t: Tier, entries: seq<Entry>, e: set<nat>, ids: seq<Entry>, f: set<nat>, done: set<string>, key: string,
                 before: map<nat, Match>, mid: map<nat, Match>, matches: map<nat, Match>,
                 m: set<nat>, u: set<nat>, gm: set<nat>, gu: set<nat>)
    requires TierProgress(t, entries, e, ids, f, done, m, u) && key !in done && key != ""
    requires e !! before.Keys
    requires PairsAdded(t, before, mid, m, u) && KeysAgree(t, entries, ids, mid, m)
    requires PairsAdded(t, mid, matches, gm, gu)
    requires LowestPositions(entries, gm, Keyed(entries, e, t, key)) && LowestPositions(ids, gu, Keyed(ids, f, t, key))
    requires |gm| == |gu| == Min(|Keyed(entries, e, t, key)|, |Keyed(ids, f, t, key)|)
    ensures TierProgress(t, entries, e, ids, f, done + {key}, m + gm, u + gu)
    ensures PairsAdded(t, before, matches, m + gm, u + gu)
    ensures KeysAgree(t, entries, ids, matches, m + gm)
  {
    KeyDone(t, entries, e, ids, f, done, m, u, key, gm, gu);
    assert forall i <- gm :: i in Keyed(entries, e, t, key);
    assert forall j <- gu :: j in Keyed(ids, f, t, key);
    PairsAddedCompose(t, before, mid, matches, m, u, gm, gu);
    GroupKeysAgree(t, entries, ids, Keyed(entries, e, t, key), Keyed(ids, f, t, key), key, mid, matches, m, gm, gu);
  }

  /** Everything `MatchTier` maintains while it works through the keys of tier `t`. */
  ghost predicate TierState(t: Tier, entries: seq<Entry>, e: set<nat>, ids: seq<Entry>, f: set<nat>, done: set<string>,
                            before: map<nat, Match>, matches: map<nat, Match>, m: set<nat>, u: set<nat>)
  {
    && TierProgress(t, entries, e, ids, f, done, m, u)
    && PairsAdded(t, before, matches, m, u)
    && KeysAgree(t, entries, ids, matches, m)
  }

  /** One round of the loop over a tier's keys. */
  method MatchKey(t: Tier, entries: seq<Entry>, ghost e: set<nat>, ids: seq<Entry>, ghost f: set<nat>,
                  ghost done: set<string>, key: string, es: seq<nat>, fs: seq<nat>,
                  ghost before: map<nat, Match>, mid: map<nat, Match>, used: array<bool>, ghost m: set<nat>, ghost u: set<nat>)
    returns (matches: map<nat, Match>, ghost m': set<nat>, ghost u': set<nat>)
    requires TierState(t, entries, e, ids, f, done, before, mid, m, u)
    requires key !in done && key != "" && e !! before.Keys && used.Length == |ids|
    requires NoDuplicates(es) && Members(es) == Keyed(entries, e, t, key)
    requires NoDuplicates(fs) && Members(fs) == Keyed(ids, f, t, key)
    modifies used
    ensures TierState(t, entries, e, ids, f, done + {key}, before, matches, m', u')
    ensures u <= u'
    ensures forall j :: 0 <= j < used.Length ==> used[j] == (old(used[j]) || j in u' - u)
  {
    assert Members(es) !! mid.Keys by {
      assert forall i <- Members(es) :: i in e && TierKey(t, entries[i]) == key;
    }
    ghost var gm, gu;
    matches, gm, gu := MatchGroup(t, entries, ids, es, fs, mid, used);
    TierStep(t, entries, e, ids, f, done, key, before, mid, matches, m, u, gm, gu);
    m', u' := m + gm, u + gu;
    assert u' - u == gu by {
      assert forall j <- gu :: j in Keyed(ids, f, t, key);
    }
  }

  /** The entries that are matched already, or were never to be. */
  function Taken(entries: seq<Entry>, before: map<nat, Match>): (taken: seq<bool>)
    ensures |taken| == |entries|
    ensures forall i: nat :: i in ValidPositions(entries) - before.Keys <==> i < |entries| && !taken[i]
  {
    seq(|entries|, (i: nat) requires i < |entries| => i in before || !Valid(entries[i]))
  }

  /** The body of the loop over tiers. */
  method MatchTier(t: Tier, entries: seq<Entry>, ids: seq<Entry>, before: map<nat, Match>, used: array<bool>, ghost f: set<nat>)
    returns (matches: map<nat, Match>, ghost m: set<nat>, ghost u: set<nat>)
    requires used.Length == |ids|
    requires forall j: nat :: j in f <==> j < |ids| && !used[j]
    modifies used
    ensures PositionOutcome(t, entries, ValidPositions(entries) - before.Keys, ids, f, m, u)
    ensures PairsAdded(t, before, matches, m, u)
    ensures KeysAgree(t, entries, ids, matches, m)
    ensures forall j :: 0 <= j < used.Length ==> used[j] == (old(used[j]) || j in u)
  {
    ghost var e := ValidPositions(entries) - before.Keys;
    var taken := Taken(entries, before);
    var consumed := used[..];
    var entryGroups := GroupByKey(t, entries, taken);
    var findingGroups := GroupByKey(t, ids, consumed);
    matches := before;
    m, u := {}, {};
    TierStarts(t, entries, e, ids, f, before);
    assert "" !in entryGroups;
    hide GroupsUpTo, Keyed, TierState, KeysAgree, PairsAdded, PositionOutcome, Members, NoDuplicates, Taken, ValidPositions;
    var todo := entryGroups.Keys;
    assert entryGroups.Keys - todo == {};
    while todo != {}
      invariant todo <= entryGroups.Keys
      invariant TierState(t, entries, e, ids, f, entryGroups.Keys - todo, before, matches, m, u)
      invariant forall j :: 0 <= j < used.Length ==> used[j] == (old(used[j]) || j in u)
    {
      var key :| key in todo;
      var es := entryGroups[key];
      var fs := GroupOf(findingGroups, key);
      GroupIsKeyed(t, entries, taken, entryGroups, e, key);
      GroupIsKeyed(t, ids, consumed, findingGroups, f, key);
      assert entryGroups.Keys - (todo - {key}) == entryGroups.Keys - todo + {key};
      matches, m, u := MatchKey(t, entries, e, ids, f, entryGroups.Keys - todo, key, es, fs, before, matches, used, m, u);
      todo := todo - {key};
    }
    assert entryGroups.Keys - todo == entryGroups.Keys;
    TierEnds(t, entries, e, ids, f, taken, entryGroups, before, matches, m, u);
  }

  lemma TierStarts(t: Tier, entries: seq<Entry>, e: set<nat>, ids: seq<Entry>, f: set<nat>, before: map<nat, Match>)
    requires InRange(e, entries) && InRange(f, ids)
    ensures TierState(t, entries, e, ids, f, {}, before, before, {}, {})
  {
  }

  lemma TierEnds(t: Tier, entries: seq<Entry>, e: set<nat>, ids: seq<Entry>, f: set<nat>, taken: seq<bool>,
                 groups: map<string, seq<nat>>, before: map<nat, Match>, matches: map<nat, Match>, m: set<nat>, u: set<nat>)
    requires TierState(t, entries, e, ids, f, groups.Keys, before, matches, m, u)
    requires |taken| == |entries| && GroupsUpTo(t, entries, taken, groups, |entries|)
    requires forall i: nat :: i in e <==> i < |entries| && !taken[i]
    ensures PositionOutcome(t, entries, e, ids, f, m, u)
    ensures PairsAdded(t, before, matches, m, u)
    ensures KeysAgree(t, entries, ids, matches, m)
  {
    AllKeysDone(t, entries, e, ids, f, groups.Keys, m, u);
  }

  lemma TiersDisjoint(entries: seq<Entry>, findings: seq<Finding>,
                      exact: map<nat, Match>, context: map<nat, Match>, matches: map<nat, Match>,
                      m1: set<nat>, u1: set<nat>, m2: set<nat>, u2: set<nat>, m3: set<nat>, u3: set<nat>)
    requires PairsAdded(Exact, map[], exact, m1, u1)
    requires PairsAdded(Context, exact, context, m2, u2)
    requires PairsAdded(Content, context, matches, m3, u3)
    requires m2 !! m1 && m3 !! m1 + m2 && u2 !! u1 && u3 !! u1 + u2
    ensures matches.Keys == m1 + m2 + m3 && Injective(matches)
    ensures MatchedAt(matches, Exact) == m1 && UsedAt(matches, Exact) == u1
    ensures MatchedAt(matches, Context) == m2 && UsedAt(matches, Context) == u2
    ensures MatchedAt(matches, Content) == m3 && UsedAt(matches, Content) == u3
    ensures forall i <- m1 :: matches[i] == exact[i]
    ensures forall i <- m2 :: matches[i] == context[i]
  {
    assert Image(matches, m1) == u1 && Image(matches, m2) == u2 && Image(matches, m3) == u3;
    assert MatchedAt(matches, Exact) == m1 && UsedAt(matches, Exact) == Image(matches, m1);
    assert MatchedAt(matches, Context) == m2 && UsedAt(matches, Context) == Image(matches, m2);
    assert MatchedAt(matches, Content) == m3 && UsedAt(matches, Content) == Image(matches, m3);
    forall i, j | i in matches && j in matches && i != j ensures matches[i].finding != matches[j].finding {
      assert matches[i].finding in Image(matches, if i in m1 then m1 else if i in m2 then m2 else m3);
      assert matches[j].finding in Image(matches, if j in m1 then m1 else if j in m2 then m2 else m3);
    }
  }

  lemma TiersReconcile(entries: seq<Entry>, findings: seq<Finding>,
                       exact: map<nat, Match>, context: map<nat, Match>, matches: map<nat, Match>,
                       m1: set<nat>, u1: set<nat>, m2: set<nat>, u2: set<nat>, m3: set<nat>, u3: set<nat>)
    requires PairsAdded(Exact, map[], exact, m1, u1)
    requires PairsAdded(Context, exact, context, m2, u2)
    requires PairsAdded(Content, context, matches, m3, u3)
    requires var ids, e, f := Identities(findings), ValidPositions(entries), Positions(|findings|);
      && PositionOutcome(Exact, entries, e, ids, f, m1, u1) && KeysAgree(Exact, entries, ids, exact, m1)
      && PositionOutcome(Context, entries, e - exact.Keys, ids, f - u1, m2, u2) && KeysAgree(Context, entries, ids, context, m2)
      && PositionOutcome(Content, entries, e - context.Keys, ids, f - u1 - u2, m3, u3)
      && KeysAgree(Content, entries, ids, matches, m3)
    ensures Reconciled(entries, findings, matches)
  {
    var e := ValidPositions(entries);
    assert e - exact.Keys == e - m1 && e - context.Keys == e - m1 - m2;
    TiersDisjoint(entries, findings, exact, context, matches, m1, u1, m2, u2, m3, u3);
  }

  /** `matchBaselineEntries`. */
  method MatchBaselineEntries(entries: seq<Entry>, findings: seq<Finding>) returns (matches: map<nat, Match>)
    ensures Reconciled(entries, findings, matches)
  {
    var ids := Identities(findings);
    var used := new bool[|findings|](_ => false);
    ghost var f := Positions(|findings|);
    ghost var m1, u1, m2, u2, m3, u3;
    var exact, context;
    matches := map[];
    assert ValidPositions(entries) - matches.Keys == ValidPositions(entries);
    exact, m1, u1 := MatchTier(Exact, entries, ids, matches, used, f);
    context, m2, u2 := MatchTier(Context, entries, ids, exact, used, f - u1);
    matches, m3, u3 := MatchTier(Content, entries, ids, context, used, f - u1 - u2);
    TiersReconcile(entries, findings, exact, context, matches, m1, u1, m2, u2, m3, u3);
  }
}
