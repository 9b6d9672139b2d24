/** `baseline_policy.go`: what changed between two baseline files, and which changes are violations. */
module BaselinePolicy {
  import opened BaselineTiers
  import opened Ordering

  /** `BaselineGovernanceConfig`, without the stale-entry rule that other code enforces. */
  datatype Policy = Policy(maxEntries: int, forbidGrowth: bool, prohibitedPrefixes: seq<string>)

  datatype Violation = MaxEntries | Growth | ProhibitedRule(entry: Entry)

  datatype Comparison = Comparison(added: seq<Entry>, removed: seq<Entry>, violations: seq<Violation>)

  function Keys(entries: seq<Entry>): seq<string> {
    seq(|entries|, i requires 0 <= i < |entries| => EntryKey(entries[i]))
  }

  function CountOf(counts: map<string, nat>, key: string): nat {
    if key in counts then counts[key] else 0
  }

  ghost predicate Counting(counts: map<string, nat>, bag: multiset<string>) {
    forall k :: CountOf(counts, k) == bag[k]
  }

  lemma KeysOfSnoc(entries: seq<Entry>, e: Entry)
    ensures Keys(entries + [e]) == Keys(entries) + [EntryKey(e)]
  {
  }

  method CountKeys(entries: seq<Entry>) returns (counts: map<string, nat>)
    ensures Counting(counts, multiset(Keys(entries)))
  {
    counts := map[];
    for n := 0 to |entries|
      invariant Counting(counts, multiset(Keys(entries[..n])))
    {
      assert entries[..n + 1] == entries[..n] + [entries[n]];
      KeysOfSnoc(entries[..n], entries[n]);
      var key := EntryKey(entries[n]);
      counts := counts[key := CountOf(counts, key) + 1];
    }
    assert entries[..|entries|] == entries;
  }

  lemma DifferenceStep(l: multiset<string>, r: multiset<string>, key: string)
    ensures (r - l)[key] > 0 ==>
      (l + multiset{key}) - r == l - r && r - (l + multiset{key}) == (r - l) - multiset{key}
    ensures (r - l)[key] == 0 ==>
      (l + multiset{key}) - r == (l - r) + multiset{key} && r - (l + multiset{key}) == r - l
  {
  }

  function Lowered(counts: map<string, nat>, key: string): map<string, nat>
    requires CountOf(counts, key) > 0
  {
    counts[key := counts[key] - 1]
  }

  lemma CountDown(counts: map<string, nat>, bag: multiset<string>, key: string)
    requires Counting(counts, bag) && CountOf(counts, key) > 0
    ensures Counting(Lowered(counts, key), bag - multiset{key})
  {
  }

  lemma CountIs(counts: map<string, nat>, bag: multiset<string>, key: string)
    requires Counting(counts, bag)
    ensures CountOf(counts, key) == bag[key]
  {
  }

  lemma KeysOfNothing()
    ensures Keys([]) == []
  {
  }

  /** `multisetDifference`: `left` without one occurrence of each key of `right`, in key order. */
  method MultisetDifference(left: seq<Entry>, right: seq<Entry>) returns (out: seq<Entry>)
    ensures multiset(Keys(out)) == multiset(Keys(left)) - multiset(Keys(right))
    ensures multiset(out) <= multiset(left)
    ensures SortedBy(out, ByKey(EntryKey))
  {
    hide Keys, EntryKey, Less, AtMost, Lowered, Counting;
    KeysOfNothing();
    var counts := CountKeys(right);
    ghost var r := multiset(Keys(right));
    var rest: seq<Entry> := [];
    assert left[..0] == [] && r - multiset(Keys(left[..0])) == r;
    for n := 0 to |left|
      invariant Counting(counts, r - multiset(Keys(left[..n])))
      invariant multiset(Keys(rest)) == multiset(Keys(left[..n])) - r
      invariant multiset(rest) <= multiset(left[..n])
    {
      assert left[..n + 1] == left[..n] + [left[n]];
      KeysOfSnoc(left[..n], left[n]);
      var key := EntryKey(left[n]);
      DifferenceStep(multiset(Keys(left[..n])), r, key);
      CountIs(counts, r - multiset(Keys(left[..n])), key);
      if CountOf(counts, key) > 0 {
        CountDown(counts, r - multiset(Keys(left[..n])), key);
        counts := Lowered(counts, key);
      } else {
        KeysOfSnoc(rest, left[n]);
        rest := rest + [left[n]];
      }
    }
    assert left[..|left|] == left;
    ByKeyIsPreorder(EntryKey);
    out := Sort(rest, ByKey(EntryKey));
    KeysOfPermutation(rest, out);
  }

  lemma KeysRemoveAt(b: seq<Entry>, i: nat)
    requires i < |b|
    ensures multiset(b[..i] + b[i + 1..]) == multiset(b) - multiset{b[i]}
    ensures multiset(Keys(b)) == multiset(Keys(b[..i] + b[i + 1..])) + multiset{EntryKey(b[i])}
  {
    assert b == b[..i] + [b[i]] + b[i + 1..];
    assert Keys(b) == Keys(b[..i]) + [EntryKey(b[i])] + Keys(b[i + 1..]);
    assert Keys(b[..i] + b[i + 1..]) == Keys(b[..i]) + Keys(b[i + 1..]);
  }

  lemma FirstFound(a: seq<Entry>, b: seq<Entry>) returns (i: nat)
    requires multiset(a) == multiset(b) && a != []
    ensures i < |b| && b[i] == a[0]
  {
    assert a[0] in multiset(b);
    i :| 0 <= i < |b| && b[i] == a[0];
  }

  lemma {:induction false} KeysOfPermutation(a: seq<Entry>, b: seq<Entry>)
    requires multiset(a) == multiset(b)
    ensures multiset(Keys(a)) == multiset(Keys(b))
    decreases |a|
  {
    if a == [] {
      assert |multiset(b)| == 0;
    } else {
      hide Keys, EntryKey;
      var i := FirstFound(a, b);
      KeysRemoveAt(a, 0);
      KeysRemoveAt(b, i);
      var rest := a[..0] + a[1..];
      KeysOfPermutation(rest, b[..i] + b[i + 1..]);
    }
  }

  predicate Prohibited(e: Entry, prefixes: seq<string>) {
    exists p :: p in prefixes && p <= e.ruleID
  }

  /** One violation for each added entry of a prohibited rule family. */
  ghost function ProhibitedIn(added: seq<Entry>, prefixes: seq<string>): multiset<Violation> {
    if added == [] then multiset{}
    else
      var last := added[|added| - 1];
      ProhibitedIn(added[..|added| - 1], prefixes)
      + (if Prohibited(last, prefixes) then multiset{ProhibitedRule(last)} else multiset{})
  }

  /** An added entry is reported as often as it was added when some prohibited prefix begins its rule, and otherwise not. */
  lemma {:induction false} ProhibitedCount(added: seq<Entry>, prefixes: seq<string>, e: Entry)
    ensures ProhibitedIn(added, prefixes)[ProhibitedRule(e)]
         == if exists p :: p in prefixes && p <= e.ruleID then multiset(added)[e] else 0
    ensures ProhibitedIn(added, prefixes)[MaxEntries] == ProhibitedIn(added, prefixes)[Growth] == 0
  {
    if added != [] {
      var init, last := added[..|added| - 1], added[|added| - 1];
      assert added == init + [last];
      ProhibitedCount(init, prefixes, e);
    }
  }

  function ViolationKey(v: Violation): string {
    match v
    case MaxEntries => "max_entries"
    case Growth => "growth"
    case ProhibitedRule(e) => "prohibited_rule" + EntryKey(e)
  }

  /** `ComparePolicy`. The growth and size rules speak of the file sizes, as the code does;
      `GrowthMeansNetAddition` relates them to the reported changes. */
  method ComparePolicy(current: seq<Entry>, comparison: seq<Entry>, policy: Policy) returns (result: Comparison)
    ensures multiset(Keys(result.added)) == multiset(Keys(current)) - multiset(Keys(comparison))
    ensures multiset(Keys(result.removed)) == multiset(Keys(comparison)) - multiset(Keys(current))
    ensures SortedBy(result.added, ByKey(EntryKey)) && SortedBy(result.removed, ByKey(EntryKey))
    ensures SortedBy(result.violations, ByKey(ViolationKey))
    ensures multiset(result.violations)
         == (if policy.maxEntries > 0 && |current| > policy.maxEntries then multiset{MaxEntries} else multiset{})
          + (if policy.forbidGrowth && |current| > |comparison| then multiset{Growth} else multiset{})
          + ProhibitedIn(result.added, policy.prohibitedPrefixes)
  {
    var added := MultisetDifference(current, comparison);
    var removed := MultisetDifference(comparison, current);
    var violations: seq<Violation> := [];
    if policy.maxEntries > 0 && |current| > policy.maxEntries {
      violations := violations + [MaxEntries];
    }
    if policy.forbidGrowth && |current| > |comparison| {
      violations := violations + [Growth];
    }
    violations := AppendProhibited(added, policy.prohibitedPrefixes, violations);
    ByKeyIsPreorder(ViolationKey);
    violations := Sort(violations, ByKey(ViolationKey));
    result := Comparison(added, removed, violations);
  }

  /** The loop of `ComparePolicy` over the added entries. */
  method AppendProhibited(added: seq<Entry>, prefixes: seq<string>, before: seq<Violation>) returns (violations: seq<Violation>)
    ensures multiset(violations) == multiset(before) + ProhibitedIn(added, prefixes)
  {
    violations := before;
    for n := 0 to |added|
      invariant multiset(violations) == multiset(before) + ProhibitedIn(added[..n], prefixes)
    {
      assert added[..n + 1][..n] == added[..n];
      var banned := HasProhibitedPrefix(added[n], prefixes);
      if banned {
        violations := violations + [ProhibitedRule(added[n])];
      }
    }
    assert added[..|added|] == added;
  }

  method HasProhibitedPrefix(e: Entry, prefixes: seq<string>) returns (found: bool)
    ensures found <==> Prohibited(e, prefixes)
  {
    for n := 0 to |prefixes|
      invariant forall k :: 0 <= k < n ==> !(prefixes[k] <= e.ruleID)
    {
      if prefixes[n] <= e.ruleID {
        assert prefixes[n] in prefixes;
        return true;
      }
    }
    return false;
  }

  /** What `ComparePolicy` reports about the two files, stated on bags of keys. */
  ghost predicate Changes(current: seq<Entry>, comparison: seq<Entry>, added: seq<Entry>, removed: seq<Entry>) {
    && multiset(Keys(added)) == multiset(Keys(current)) - multiset(Keys(comparison))
    && multiset(Keys(removed)) == multiset(Keys(comparison)) - multiset(Keys(current))
  }

  lemma KeysConcat(a: seq<Entry>, b: seq<Entry>)
    ensures multiset(Keys(a + b)) == multiset(Keys(a)) + multiset(Keys(b))
    ensures |multiset(Keys(a + b))| == |a| + |b|
  {
    assert Keys(a + b) == Keys(a) + Keys(b);
  }

  lemma BagsConserve(c: multiset<string>, p: multiset<string>)
    ensures p + (c - p) == c + (p - c) && (c - p) !! (p - c)
  {
  }

  /** comparison + Added = current + Removed, and no key is both added and removed. */
  lemma ChangesConserveEntries(current: seq<Entry>, comparison: seq<Entry>, added: seq<Entry>, removed: seq<Entry>)
    requires Changes(current, comparison, added, removed)
    ensures multiset(Keys(comparison + added)) == multiset(Keys(current + removed))
    ensures multiset(Keys(added)) !! multiset(Keys(removed))
    ensures |comparison| + |added| == |current| + |removed|
  {
    KeysConcat(comparison, added);
    KeysConcat(current, removed);
    hide Keys;
    BagsConserve(multiset(Keys(current)), multiset(Keys(comparison)));
  }

  /** With `forbid_growth`, a growth violation is reported exactly when more entries were added than removed. */
  lemma GrowthMeansNetAddition(current: seq<Entry>, comparison: seq<Entry>, added: seq<Entry>, removed: seq<Entry>)
    requires Changes(current, comparison, added, removed)
    ensures |current| > |comparison| <==> |added| > |removed|
  {
    ChangesConserveEntries(current, comparison, added, removed);
  }

  // ----- the order of the violations -----

  lemma {:induction false} CommonPrefix(p: string, x: string, y: string)
    ensures AtMost(p + x, p + y) <==> AtMost(x, y)
  {
    if p == "" {
      assert p + x == x && p + y == y;
    } else {
      assert (p + x)[1..] == p[1..] + x && (p + y)[1..] == p[1..] + y;
      CommonPrefix(p[1..], x, y);
    }
  }

  lemma FirstLetters(a: string, b: string)
    requires a != "" && b != "" && a[0] < b[0]
    ensures !AtMost(b, a)
  {
  }

  /** Growth comes first, then the size of the file, then the prohibited entries in key order. */
  lemma ViolationOrder(violations: seq<Violation>, i: nat, j: nat)
    requires SortedBy(violations, ByKey(ViolationKey)) && i < j < |violations|
    ensures violations[j].Growth? ==> violations[i].Growth?
    ensures violations[j].MaxEntries? ==> !violations[i].ProhibitedRule?
    ensures violations[i].ProhibitedRule? && violations[j].ProhibitedRule? ==> KeyAtMost(violations[i].entry, violations[j].entry)
  {
    var x, y := violations[i], violations[j];
    assert ByKey(ViolationKey)(x, y);
    var a, b := ViolationKey(x), ViolationKey(y);
    assert AtMost(a, b);
    assert a[0] == if x.Growth? then 'g' else if x.MaxEntries? then 'm' else 'p';
    assert b[0] == if y.Growth? then 'g' else if y.MaxEntries? then 'm' else 'p';
    hide AtMost, EntryKey;
    if x.ProhibitedRule? && y.ProhibitedRule? {
      CommonPrefix("prohibited_rule", EntryKey(x.entry), EntryKey(y.entry));
    } else if b[0] < a[0] {
      FirstLetters(b, a);
    }
  }
}
