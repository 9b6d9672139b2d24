/** `mcp_findings_view.go`: filtering, ordering and paging the findings of a report. */
module FindingsView {
  import opened Ordering
  import opened Sequences
  import opened Text
  import opened FindingsQuery

  type Glob = (string, string) -> bool

  datatype Item = Item(section: string, finding: Finding)

  datatype Report = Report(name: string, sections: seq<Section>)

  // ----- filtering -----

  function SectionItems(s: Section): seq<Item> {
    seq(|s.findings|, k requires 0 <= k < |s.findings| => Item(s.id, s.findings[k]))
  }

  /** Every finding of a report with its section, in report order. */
  function AllItems(sections: seq<Section>): seq<Item> {
    if sections == [] then [] else AllItems(sections[..|sections| - 1]) + SectionItems(sections[|sections| - 1])
  }

  function ReasonFor(f: Selection, item: Item, glob: Glob): Reason {
    ExclusionReason(f, item.section, item.finding, glob)
  }

  /** The items with a given fate, in order. */
  function WithReason(items: seq<Item>, f: Selection, glob: Glob, r: Reason): seq<Item> {
    if items == [] then []
    else
      var last := items[|items| - 1];
      WithReason(items[..|items| - 1], f, glob, r) + (if ReasonFor(f, last, glob) == r then [last] else [])
  }

  lemma {:induction false} WithReasonConcat(a: seq<Item>, b: seq<Item>, f: Selection, glob: Glob, r: Reason)
    ensures WithReason(a + b, f, glob, r) == WithReason(a, f, glob, r) + WithReason(b, f, glob, r)
  {
    hide ReasonFor;
    if b == [] {
      assert a + b == a;
    } else {
      assert (a + b)[..|a + b| - 1] == a + b[..|b| - 1];
      WithReasonConcat(a, b[..|b| - 1], f, glob, r);
    }
  }

  datatype FilteredOut = FilteredOut(total: nat, sections: nat, rules: nat, minLevel: nat, paths: nat, minConfidence: nat)

  datatype SectionRow = SectionRow(id: string, findings: nat, matched: nat, confidenceFiltered: nat)

  /** `add`. */
  function Add(c: FilteredOut, r: Reason): FilteredOut {
    var c' := c.(total := c.total + 1);
    match r
    case BySection => c'.(sections := c.sections + 1)
    case ByRule => c'.(rules := c.rules + 1)
    case ByLevel => c'.(minLevel := c.minLevel + 1)
    case ByPath => c'.(paths := c.paths + 1)
    case NotExcluded => c'
  }

  /** Each count is the number of items that met that fate. */
  ghost predicate CountsExclusions(c: FilteredOut, items: seq<Item>, f: Selection, glob: Glob) {
    && c.sections == |WithReason(items, f, glob, BySection)|
    && c.rules == |WithReason(items, f, glob, ByRule)|
    && c.minLevel == |WithReason(items, f, glob, ByLevel)|
    && c.paths == |WithReason(items, f, glob, ByPath)|
    && c.total == c.sections + c.rules + c.minLevel + c.paths
    && |items| == |WithReason(items, f, glob, NotExcluded)| + c.total
  }

  lemma WithReasonNext(items: seq<Item>, item: Item, f: Selection, glob: Glob, r: Reason)
    ensures WithReason(items + [item], f, glob, r)
         == WithReason(items, f, glob, r) + (if ReasonFor(f, item, glob) == r then [item] else [])
  {
    hide ReasonFor;
    assert (items + [item])[..|items|] == items;
  }

  lemma AddCounts(c: FilteredOut, items: seq<Item>, item: Item, f: Selection, glob: Glob)
    requires CountsExclusions(c, items, f, glob)
    ensures CountsExclusions(if ReasonFor(f, item, glob) == NotExcluded then c else Add(c, ReasonFor(f, item, glob)),
                             items + [item], f, glob)
  {
    hide WithReason;
    WithReasonNext(items, item, f, glob, NotExcluded);
    WithReasonNext(items, item, f, glob, BySection);
    WithReasonNext(items, item, f, glob, ByRule);
    WithReasonNext(items, item, f, glob, ByLevel);
    WithReasonNext(items, item, f, glob, ByPath);
    hide ReasonFor;
  }

  /** The inner loop of `collectMatched`, over one section. */
  method CollectSection(section: Section, f: Selection, glob: Glob, matched: seq<Item>, counts: FilteredOut, ghost before: seq<Item>)
    returns (matched': seq<Item>, counts': FilteredOut, row: SectionRow)
    requires matched == WithReason(before, f, glob, NotExcluded) && CountsExclusions(counts, before, f, glob)
    ensures matched' == WithReason(before + SectionItems(section), f, glob, NotExcluded)
    ensures CountsExclusions(counts', before + SectionItems(section), f, glob)
    ensures counts'.minConfidence == counts.minConfidence
    ensures row == SectionRow(section.id, |section.findings|, |WithReason(SectionItems(section), f, glob, NotExcluded)|,
                              section.confidenceFiltered)
  {
    hide WithReason, CountsExclusions, ExclusionReason;
    ghost var items := SectionItems(section);
    matched', counts' := matched, counts;
    row := SectionRow(section.id, |section.findings|, 0, section.confidenceFiltered);
    WithReasonOfNone(f, glob);
    assert before + items[..0] == before && items[..0] == [];
    for k := 0 to |section.findings|
      invariant matched' == WithReason(before + items[..k], f, glob, NotExcluded)
      invariant CountsExclusions(counts', before + items[..k], f, glob)
      invariant counts'.minConfidence == counts.minConfidence
      invariant row == SectionRow(section.id, |section.findings|, |WithReason(items[..k], f, glob, NotExcluded)|,
                                  section.confidenceFiltered)
    {
      var item := Item(section.id, section.findings[k]);
      assert before + items[..k + 1] == (before + items[..k]) + [item] && items[..k + 1] == items[..k] + [item];
      AddCounts(counts', before + items[..k], item, f, glob);
      WithReasonNext(before + items[..k], item, f, glob, NotExcluded);
      WithReasonNext(items[..k], item, f, glob, NotExcluded);
      var reason := ExclusionReason(f, section.id, section.findings[k], glob);
      if reason == NotExcluded {
        row := row.(matched := row.matched + 1);
        matched' := matched' + [item];
      } else {
        counts' := Add(counts', reason);
      }
    }
    assert items[..|section.findings|] == items;
  }

  lemma WithReasonOfNone(f: Selection, glob: Glob)
    ensures forall r :: WithReason([], f, glob, r) == []
    ensures CountsExclusions(FilteredOut(0, 0, 0, 0, 0, 0), [], f, glob)
  {
  }

  function ConfidenceFiltered(sections: seq<Section>): nat {
    if sections == [] then 0
    else ConfidenceFiltered(sections[..|sections| - 1]) + sections[|sections| - 1].confidenceFiltered
  }

  function RowFor(section: Section, f: Selection, glob: Glob): SectionRow {
    SectionRow(section.id, |section.findings|, |WithReason(SectionItems(section), f, glob, NotExcluded)|, section.confidenceFiltered)
  }

  /** The counts by reason, what the scan's own confidence filter dropped, and one row for each section, in order. */
  ghost predicate Explains(counts: FilteredOut, rows: seq<SectionRow>, sections: seq<Section>, f: Selection, glob: Glob) {
    && counts.total >= counts.minConfidence
    && CountsExclusions(counts.(total := counts.total - counts.minConfidence), AllItems(sections), f, glob)
    && counts.minConfidence == ConfidenceFiltered(sections)
    && |rows| == |sections| && forall k :: 0 <= k < |rows| ==> rows[k] == RowFor(sections[k], f, glob)
  }

  /** `collectMatched`. The counts explain every finding that is missing from `matched`. */
  method CollectMatched(sections: seq<Section>, f: Selection, glob: Glob)
    returns (matched: seq<Item>, counts: FilteredOut, rows: seq<SectionRow>)
    ensures matched == WithReason(AllItems(sections), f, glob, NotExcluded)
    ensures Explains(counts, rows, sections, f, glob)
  {
    hide WithReason, CountsExclusions, SectionItems;
    matched, rows := [], [];
    counts := FilteredOut(0, 0, 0, 0, 0, 0);
    WithReasonOfNone(f, glob);
    for n := 0 to |sections|
      invariant matched == WithReason(AllItems(sections[..n]), f, glob, NotExcluded)
      invariant CountsExclusions(counts, AllItems(sections[..n]), f, glob)
      invariant counts.minConfidence == ConfidenceFiltered(sections[..n])
      invariant |rows| == n && forall k :: 0 <= k < n ==> rows[k] == RowFor(sections[k], f, glob)
    {
      assert sections[..n + 1][..n] == sections[..n];
      var row;
      matched, counts, row := CollectSection(sections[n], f, glob, matched, counts, AllItems(sections[..n]));
      MinConfidenceApart(counts, counts.minConfidence + sections[n].confidenceFiltered, AllItems(sections[..n + 1]), f, glob);
      counts := counts.(minConfidence := counts.minConfidence + sections[n].confidenceFiltered);
      rows := rows + [row];
    }
    assert sections[..|sections|] == sections;
    counts := counts.(total := counts.total + counts.minConfidence);
  }

  lemma MinConfidenceApart(c: FilteredOut, n: nat, items: seq<Item>, f: Selection, glob: Glob)
    requires CountsExclusions(c, items, f, glob)
    ensures CountsExclusions(c.(minConfidence := n), items, f, glob)
  {
  }

  // ----- ordering -----

  /** `sortSectionFindings`: level, confidence, path, line, rule and fingerprint, in that order. */
  predicate SortsBefore(x: Item, y: Item) {
    var a, b := x.finding, y.finding;
    if LevelRank(a.level) != LevelRank(b.level) then LevelRank(a.level) > LevelRank(b.level)
    else if ConfidenceRank(a.confidence) != ConfidenceRank(b.confidence) then
      ConfidenceRank(a.confidence) > ConfidenceRank(b.confidence)
    else if a.path != b.path then Less(a.path, b.path)
    else if a.line != b.line then a.line < b.line
    else if a.ruleID != b.ruleID then Less(a.ruleID, b.ruleID)
    else Less(a.fingerprint, b.fingerprint)
  }

  predicate NotAfter(x: Item, y: Item) {
    !SortsBefore(y, x)
  }

  lemma NotAfterTotal(x: Item, y: Item)
    ensures NotAfter(x, y) || NotAfter(y, x)
  {
    AtMostTotal(x.finding.path, y.finding.path);
    AtMostTotal(x.finding.ruleID, y.finding.ruleID);
    AtMostTotal(x.finding.fingerprint, y.finding.fingerprint);
    hide Less, LevelRank, ConfidenceRank;
  }

  lemma NotAfterTransitive(x: Item, y: Item, z: Item)
    requires NotAfter(x, y) && NotAfter(y, z)
    ensures NotAfter(x, z)
  {
    StringsTransitive(x.finding.path, y.finding.path, z.finding.path);
    StringsTransitive(x.finding.ruleID, y.finding.ruleID, z.finding.ruleID);
    StringsTransitive(x.finding.fingerprint, y.finding.fingerprint, z.finding.fingerprint);
    hide Less, LevelRank, ConfidenceRank;
  }

  lemma StringsTransitive(a: string, b: string, c: string)
    ensures !Less(b, a) && !Less(c, b) ==> !Less(c, a)
    ensures a != b ==> Less(a, b) || Less(b, a)
    ensures Less(a, b) ==> !Less(b, a)
    ensures b != c ==> Less(b, c) || Less(c, b)
    ensures a != c ==> Less(a, c) || Less(c, a)
    ensures Less(a, b) && !Less(c, b) ==> Less(a, c)
    ensures !Less(b, a) && Less(b, c) ==> Less(a, c)
  {
    if AtMost(a, b) && AtMost(b, c) {
      AtMostTransitive(a, b, c);
    }
    if AtMost(c, a) && AtMost(a, b) {
      AtMostTransitive(c, a, b);
    }
    if AtMost(b, c) && AtMost(c, a) {
      AtMostTransitive(b, c, a);
    }
    if AtMost(a, b) && AtMost(b, a) {
      AtMostAntisymmetric(a, b);
    }
    if AtMost(b, c) && AtMost(c, b) {
      AtMostAntisymmetric(b, c);
    }
    if AtMost(a, c) && AtMost(c, a) {
      AtMostAntisymmetric(a, c);
    }
    AtMostTotal(a, b);
    AtMostTotal(b, c);
    AtMostTotal(a, c);
  }

  lemma FindingOrderIsPreorder()
    ensures TotalPreorder(NotAfter)
  {
    hide NotAfter;
    forall x, y ensures NotAfter(x, y) || NotAfter(y, x) {
      NotAfterTotal(x, y);
    }
    forall x, y, z | NotAfter(x, y) && NotAfter(y, z) ensures NotAfter(x, z) {
      NotAfterTransitive(x, y, z);
    }
  }

  /** The list that every page and cursor of a query on a report indexes. */
  function OrderedMatches(report: Report, f: Selection, glob: Glob): seq<Item> {
    StableSort(WithReason(AllItems(report.sections), f, glob, NotExcluded), NotAfter)
  }

  lemma {:induction false} MatchedExactly(items: seq<Item>, f: Selection, glob: Glob, r: Reason)
    ensures forall x :: multiset(WithReason(items, f, glob, r))[x] == if ReasonFor(f, x, glob) == r then multiset(items)[x] else 0
  {
    hide ReasonFor;
    if items != [] {
      assert items == items[..|items| - 1] + [items[|items| - 1]];
      MatchedExactly(items[..|items| - 1], f, glob, r);
    }
  }

  /** Every matching finding of the report, as often as it is there, and nothing else; in order. */
  lemma OrderedMatchesExactly(report: Report, f: Selection, glob: Glob)
    ensures SortedBy(OrderedMatches(report, f, glob), NotAfter)
    ensures forall x :: multiset(OrderedMatches(report, f, glob))[x]
                     == if ReasonFor(f, x, glob) == NotExcluded then multiset(AllItems(report.sections))[x] else 0
  {
    hide NotAfter, ReasonFor;
    FindingOrderIsPreorder();
    StableSortIsStable(WithReason(AllItems(report.sections), f, glob, NotExcluded), NotAfter);
    MatchedExactly(AllItems(report.sections), f, glob, NotExcluded);
  }

  /** A finding is never listed below a less grave one, nor among equally grave ones below a less certain one, nor
      among those out of order of path, then line, then rule. */
  lemma GravestFirst(report: Report, f: Selection, glob: Glob, i: nat, j: nat)
    requires i < j < |OrderedMatches(report, f, glob)|
    ensures var items := OrderedMatches(report, f, glob);
      var a, b := items[i].finding, items[j].finding;
      && LevelRank(a.level) >= LevelRank(b.level)
      && (LevelRank(a.level) == LevelRank(b.level) ==>
            && ConfidenceRank(a.confidence) >= ConfidenceRank(b.confidence)
            && (ConfidenceRank(a.confidence) == ConfidenceRank(b.confidence) ==>
                  && AtMost(a.path, b.path)
                  && (a.path == b.path ==> a.line <= b.line && (a.line == b.line ==> AtMost(a.ruleID, b.ruleID)))))
  {
    OrderedMatchesExactly(report, f, glob);
    hide OrderedMatches, LevelRank, ConfidenceRank;
    var items := OrderedMatches(report, f, glob);
    var a, b := items[i].finding, items[j].finding;
    assert NotAfter(items[i], items[j]);
    StringsTransitive(a.path, b.path, a.path);
    StringsTransitive(a.ruleID, b.ruleID, a.ruleID);
  }

  // ----- the ten most frequent rules -----

  const TOP_RULES_LIMIT: nat := 10

  datatype RuleCount = RuleCount(ruleID: string, level: string, count: nat)

  /** What `items` say about one rule: how often it was broken, and the first of its gravest levels. */
  function Tally(items: seq<Item>, ruleID: string): RuleCount {
    if items == [] then RuleCount(ruleID, "", 0)
    else
      var before := Tally(items[..|items| - 1], ruleID);
      var finding := items[|items| - 1].finding;
      if finding.ruleID != ruleID then before
      else
        var graver := before.count == 0 || LevelRank(finding.level) > LevelRank(before.level);
        RuleCount(ruleID, if graver then finding.level else before.level, before.count + 1)
  }

  lemma TallySnoc(items: seq<Item>, item: Item, ruleID: string)
    ensures var before := Tally(items, ruleID);
            Tally(items + [item], ruleID) ==
              if item.finding.ruleID != ruleID then before
              else RuleCount(ruleID, if before.count == 0 || LevelRank(item.finding.level) > LevelRank(before.level)
                                     then item.finding.level else before.level, before.count + 1)
  {
    hide LevelRank;
    assert (items + [item])[..|items|] == items;
  }

  ghost predicate TalliesOf(counts: map<string, RuleCount>, items: seq<Item>) {
    forall r :: (r in counts <==> Tally(items, r).count > 0) && (r in counts ==> counts[r] == Tally(items, r))
  }

  /** The counting loop of `topRules`. */
  method CountRules(items: seq<Item>) returns (counts: map<string, RuleCount>)
    ensures TalliesOf(counts, items)
  {
    hide LevelRank;
    counts := map[];
    for n := 0 to |items|
      invariant TalliesOf(counts, items[..n])
    {
      assert items[..n + 1] == items[..n] + [items[n]];
      forall r ensures Tally(items[..n], r).ruleID == r {
        TallyNames(items[..n], r);
      }
      forall r {
        TallySnoc(items[..n], items[n], r);
      }
      hide Tally;
      var finding := items[n].finding;
      var entry := if finding.ruleID in counts then counts[finding.ruleID] else RuleCount(finding.ruleID, finding.level, 0);
      entry := entry.(count := entry.count + 1);
      if LevelRank(finding.level) > LevelRank(entry.level) {
        entry := entry.(level := finding.level);
      }
      counts := counts[finding.ruleID := entry];
    }
    assert items[..|items|] == items;
  }

  lemma {:induction false} TallyNames(items: seq<Item>, r: string)
    ensures Tally(items, r).ruleID == r
  {
    if items != [] {
      TallyNames(items[..|items| - 1], r);
    }
  }

  /** More frequent rules first, then by name. */
  predicate RanksBefore(x: RuleCount, y: RuleCount) {
    if x.count != y.count then x.count > y.count else AtMost(x.ruleID, y.ruleID)
  }

  lemma RankingIsPreorder()
    ensures TotalPreorder(RanksBefore)
  {
    forall x, y ensures RanksBefore(x, y) || RanksBefore(y, x) {
      AtMostTotal(x.ruleID, y.ruleID);
    }
    forall x, y, z | RanksBefore(x, y) && RanksBefore(y, z) ensures RanksBefore(x, z) {
      if AtMost(x.ruleID, y.ruleID) && AtMost(y.ruleID, z.ruleID) {
        AtMostTransitive(x.ruleID, y.ruleID, z.ruleID);
      }
    }
  }

  method Entries(counts: map<string, RuleCount>) returns (out: seq<RuleCount>)
    requires forall r :: r in counts ==> counts[r].ruleID == r
    ensures forall e :: e in out <==> e.ruleID in counts && counts[e.ruleID] == e
    ensures NoDuplicates(out)
  {
    out := [];
    var left := counts.Keys;
    while left != {}
      invariant left <= counts.Keys
      invariant forall e :: e in out <==> e.ruleID in counts.Keys - left && counts[e.ruleID] == e
      invariant NoDuplicates(out)
      decreases |left|
    {
      var r :| r in left;
      left := left - {r};
      out := out + [counts[r]];
    }
  }

  /** The ranking fixes `topRules` whatever the order of the map and of ties in the sort:
      the listed rules are in strict order and every rule left out ranks after ten others. */
  ghost predicate IsTop(out: seq<RuleCount>, items: seq<Item>) {
    && |out| <= TOP_RULES_LIMIT
    && (forall i, j :: 0 <= i < j < |out| ==> RanksBefore(out[i], out[j]) && out[i].ruleID != out[j].ruleID)
    && (forall e :: e in out ==> e.count > 0 && e == Tally(items, e.ruleID))
    && (forall r :: Tally(items, r).count > 0 ==>
          Tally(items, r) in out || (|out| == TOP_RULES_LIMIT && forall e :: e in out ==> RanksBefore(e, Tally(items, r))))
  }

  lemma CountsNamed(counts: map<string, RuleCount>, items: seq<Item>)
    requires TalliesOf(counts, items)
    ensures forall r :: r in counts ==> counts[r].ruleID == r
  {
    forall r ensures Tally(items, r).ruleID == r {
      TallyNames(items, r);
    }
    hide Tally;
  }

  method TopRules(items: seq<Item>) returns (out: seq<RuleCount>)
    ensures IsTop(out, items)
  {
    var counts := CountRules(items);
    CountsNamed(counts, items);
    var entries := Entries(counts);
    RankingIsPreorder();
    var ranked := Sort(entries, RanksBefore);
    out := if |ranked| > TOP_RULES_LIMIT then ranked[..TOP_RULES_LIMIT] else ranked;
    hide TalliesOf, NoDuplicates, IsTop, RanksBefore;
    RankedTallies(items, counts, entries, ranked);
    RankedIsTop(items, ranked, out);
  }

  /** The ranked entries are the tallies of the rules that occur, each once. */
  lemma RankedTallies(items: seq<Item>, counts: map<string, RuleCount>, entries: seq<RuleCount>, ranked: seq<RuleCount>)
    requires TalliesOf(counts, items) && multiset(ranked) == multiset(entries) && NoDuplicates(entries)
    requires forall e :: e in entries <==> e.ruleID in counts && counts[e.ruleID] == e
    ensures NoDuplicates(ranked)
    ensures forall e :: e in ranked ==> e.count > 0 && e == Tally(items, e.ruleID)
    ensures forall r :: Tally(items, r).count > 0 ==> Tally(items, r) in ranked
  {
    forall r ensures Tally(items, r).ruleID == r {
      TallyNames(items, r);
    }
    PermutationKeepsDistinct(entries, ranked);
    SameMembers(entries, ranked);
    hide Tally, NoDuplicates, Members;
  }

  lemma RankedIsTop(items: seq<Item>, ranked: seq<RuleCount>, out: seq<RuleCount>)
    requires NoDuplicates(ranked) && SortedBy(ranked, RanksBefore)
    requires forall e :: e in ranked ==> e.count > 0 && e == Tally(items, e.ruleID)
    requires forall r :: Tally(items, r).count > 0 ==> Tally(items, r) in ranked
    requires out == if |ranked| > TOP_RULES_LIMIT then ranked[..TOP_RULES_LIMIT] else ranked
    ensures IsTop(out, items)
  {
    hide RanksBefore, Tally;
    TopCovers(items, ranked, out);
    forall i, j | 0 <= i < j < |out| ensures RanksBefore(out[i], out[j]) && out[i].ruleID != out[j].ruleID {
      assert out[i] == ranked[i] && out[j] == ranked[j] && ranked[i] in ranked && ranked[j] in ranked;
    }
  }

  /** What the limit cuts off ranks after what it keeps. */
  lemma TopCovers(items: seq<Item>, ranked: seq<RuleCount>, out: seq<RuleCount>)
    requires forall i, j :: 0 <= i < j < |ranked| ==> RanksBefore(ranked[i], ranked[j])
    requires forall r :: Tally(items, r).count > 0 ==> Tally(items, r) in ranked
    requires out == if |ranked| > TOP_RULES_LIMIT then ranked[..TOP_RULES_LIMIT] else ranked
    ensures forall r :: Tally(items, r).count > 0 ==>
      Tally(items, r) in out || (|out| == TOP_RULES_LIMIT && forall e :: e in out ==> RanksBefore(e, Tally(items, r)))
  {
    hide Tally, RanksBefore;
    forall r | Tally(items, r).count > 0
      ensures Tally(items, r) in out || (|out| == TOP_RULES_LIMIT && forall e :: e in out ==> RanksBefore(e, Tally(items, r)))
    {
      var k :| 0 <= k < |ranked| && ranked[k] == Tally(items, r);
      if k >= |out| {
        assert forall i :: 0 <= i < |out| ==> RanksBefore(ranked[i], ranked[k]);
      } else {
        assert out[k] == Tally(items, r);
      }
    }
  }

  // ----- one page -----

  datatype Evidence =
    | Withheld
    | Evidence(title: string, severity: string, why: string, column: int, fingerprint: string, metadata: map<string, string>)

  datatype View = View(
    ruleID: string, level: string, confidence: string, section: string, location: string, path: string,
    line: int, message: string, howToFix: string, evidence: Evidence)

  function Location(finding: Finding): string {
    if finding.path == "" then ""
    else if finding.line <= 0 then finding.path
    else finding.path + ":" + Decimal(finding.line)
  }

  /** `compactFinding`. */
  function Compact(item: Item, verbose: bool): View {
    var x := item.finding;
    var confidence := NormalizedConfidence(x.confidence);
    View(x.ruleID, x.level, if confidence == "" then "medium" else confidence, item.section, Location(x), x.path,
         x.line, x.message, TrimSpace(x.howToFix),
         if verbose then Evidence(x.title, x.severity, x.why, x.column, x.fingerprint, x.metadata) else Withheld)
  }

  function Views(items: seq<Item>, verbose: bool): seq<View> {
    seq(|items|, k requires 0 <= k < |items| => Compact(items[k], verbose))
  }

  /** The part of the list that a page of `limit` findings from `offset` covers. */
  function PageOf(items: seq<Item>, offset: nat, limit: nat): seq<Item> {
    if offset >= |items| then []
    else if offset + limit >= |items| then items[offset..]
    else items[offset..offset + limit]
  }

  /** `pageFindings`. */
  method PageFindings(items: seq<Item>, offset: nat, limit: nat, verbose: bool) returns (out: seq<View>)
    ensures out == Views(PageOf(items, offset, limit), verbose)
  {
    hide Compact;
    out := [];
    var i := offset;
    while i < |items| && |out| < limit
      invariant i == offset + |out|
      invariant out == [] || i <= |items|
      invariant |out| <= limit
      invariant forall k :: 0 <= k < |out| ==> out[k] == Compact(items[offset + k], verbose)
    {
      out := out + [Compact(items[i], verbose)];
      i := i + 1;
    }
  }

  datatype Response = Response(
    name: string, matched: nat, returned: nat, filteredOut: FilteredOut, topRules: seq<RuleCount>, rows: seq<SectionRow>,
    findings: seq<View>, offset: nat, truncated: bool, filters: Filters)

  /** What a response says: the page of the ordered matches that its offset and filters ask for, whether more follows,
      the most frequent rules, and where the other findings went. */
  ghost predicate Answers(resp: Response, report: Report, filters: Filters, glob: Glob, offset: nat) {
    var items := OrderedMatches(report, filters.selection, glob);
    var page := PageOf(items, offset, filters.maxFindings);
    && resp.name == report.name && resp.filters == filters && resp.offset == offset
    && resp.matched == |items|
    && resp.findings == Views(page, filters.verbose)
    && resp.returned == |page|
    && (resp.truncated <==> offset + |page| < |items|)
    && IsTop(resp.topRules, items)
    && Explains(resp.filteredOut, resp.rows, report.sections, filters.selection, glob)
  }

  /** `buildFindingsResponse`. */
  method BuildFindingsResponse(report: Report, filters: Filters, glob: Glob, offset: nat) returns (resp: Response)
    ensures Answers(resp, report, filters, glob, offset)
  {
    hide Compact, NotAfter, IsTop, Explains;
    var matched, counts, rows := CollectMatched(report.sections, filters.selection, glob);
    FindingOrderIsPreorder();
    StableSortIsStable(matched, NotAfter);
    assert |matched| == |multiset(matched)|;
    var items := StableSort(matched, NotAfter);
    assert |items| == |multiset(items)|;
    var top := TopRules(items);
    var page := PageFindings(items, offset, filters.maxFindings, filters.verbose);
    resp := Response(report.name, |items|, |page|, counts, top, rows, page, offset, offset + |page| < |items|, filters);
  }
}
