/** What the findings tools' filters, order and tallies mean, on the words that levels, confidences, rules and sections
    are written in. */
module FindingsMeaning {
  import opened Ordering
  import opened Sequences
  import opened Text
  import opened FindingsQuery
  import opened FindingsView

  /** A level reads as a word whatever its case and the blanks around it. */
  predicate Reads(level: string, word: string) {
    Lower(TrimSpace(level)) == word
  }

  predicate ReadsSure(confidence: string, word: string) {
    TrimSpace(Lower(confidence)) == word
  }

  lemma WordsRead()
    ensures Reads("fail", "fail") && Reads("warn", "warn")
  {
    assert TrimSpace("fail") == "fail" && TrimSpace("warn") == "warn";
    hide TrimSpace;
    assert Lower("fail") == "fail" && Lower("warn") == "warn";
  }

  /** `min_level: fail` keeps the failures, `min_level: warn` the warnings as well. */
  lemma LevelFilter(section: string, finding: Finding, glob: Glob)
    ensures ExclusionReason(ANY.(minLevel := "fail"), section, finding, glob)
         == if Reads(finding.level, "fail") then NotExcluded else ByLevel
    ensures ExclusionReason(ANY.(minLevel := "warn"), section, finding, glob)
         == if Reads(finding.level, "fail") || Reads(finding.level, "warn") then NotExcluded else ByLevel
  {
    WordsRead();
    hide TrimSpace, Lower;
  }

  /** A section filter keeps the findings of the sections whose trimmed, lower-cased ids are listed. */
  lemma SectionFilter(sections: seq<string>, section: string, finding: Finding, glob: Glob)
    ensures ExclusionReason(ANY.(sections := sections), section, finding, glob)
         == if sections == [] || TrimSpace(Lower(section)) in sections then NotExcluded else BySection
  {
    hide TrimSpace, Lower;
  }

  /** One rule entry: a prefix and a star, a prefix that ends in a dot, or else the rule itself. */
  lemma RuleFilter(entry: string, section: string, finding: Finding, glob: Glob)
    ensures entry != "" && entry[|entry| - 1] == '*' ==>
      (ExclusionReason(ANY.(rules := [entry]), section, finding, glob) == NotExcluded <==> entry[..|entry| - 1] <= finding.ruleID)
    ensures entry != "" && entry[|entry| - 1] == '.' ==>
      (ExclusionReason(ANY.(rules := [entry]), section, finding, glob) == NotExcluded <==> entry <= finding.ruleID)
    ensures entry == "" || (entry[|entry| - 1] != '*' && entry[|entry| - 1] != '.') ==>
      (ExclusionReason(ANY.(rules := [entry]), section, finding, glob) == NotExcluded <==> entry == finding.ruleID)
    ensures ExclusionReason(ANY.(rules := [entry]), section, finding, glob) in {NotExcluded, ByRule}
  {
    Suffixes(entry);
    assert MatchesRules([entry], finding.ruleID) <==> RuleMatches(entry, finding.ruleID) by {
      assert entry in [entry];
    }
    hide HasSuffix;
  }

  lemma Suffixes(entry: string)
    ensures HasSuffix(entry, "*") <==> entry != "" && entry[|entry| - 1] == '*'
    ensures HasSuffix(entry, ".") <==> entry != "" && entry[|entry| - 1] == '.'
  {
    if entry != "" {
      assert entry[|entry| - 1..] == [entry[|entry| - 1]];
    }
  }

  lemma OneRule(entry: string, section: string, finding: Finding, glob: Glob)
    ensures ExclusionReason(ANY.(rules := [entry]), section, finding, glob) == NotExcluded <==> RuleMatches(entry, finding.ruleID)
  {
    assert entry in [entry];
    hide RuleMatches, SectionKey, LevelRank, MatchesPaths;
  }

  /** A list of rule entries keeps what some entry of it keeps. */
  lemma RulesFilter(rules: seq<string>, section: string, finding: Finding, glob: Glob)
    ensures ExclusionReason(ANY.(rules := rules), section, finding, glob) == NotExcluded <==>
      rules == [] || exists r :: r in rules && ExclusionReason(ANY.(rules := [r]), section, finding, glob) == NotExcluded
  {
    forall r ensures ExclusionReason(ANY.(rules := [r]), section, finding, glob) == NotExcluded <==> RuleMatches(r, finding.ruleID) {
      OneRule(r, section, finding, glob);
    }
    assert ExclusionReason(ANY.(rules := rules), section, finding, glob) == NotExcluded <==> rules == [] || MatchesRules(rules, finding.ruleID);
    hide ExclusionReason, RuleMatches;
  }

  /** A list of paths keeps the findings in a file that some glob of it matches, and none without a file. */
  lemma PathsFilter(paths: seq<string>, section: string, finding: Finding, glob: Glob)
    ensures ExclusionReason(ANY.(paths := paths), section, finding, glob) == NotExcluded <==>
      paths == [] || (TrimSpace(finding.path) != "" && exists p :: p in paths && glob(p, finding.path))
  {
    BlankTrimsToNothing(finding.path);
    hide TrimSpace, Blank;
  }

  /** Of the filters that a finding fails, the first in this order is blamed. */
  lemma BlamesFirst(f: Selection, section: string, finding: Finding, glob: Glob)
    ensures ExclusionReason(f, section, finding, glob) ==
      var bySection := ExclusionReason(ANY.(sections := f.sections), section, finding, glob);
      var byRule := ExclusionReason(ANY.(rules := f.rules), section, finding, glob);
      var byLevel := ExclusionReason(ANY.(minLevel := f.minLevel), section, finding, glob);
      if bySection == BySection then BySection
      else if byRule == ByRule then ByRule
      else if byLevel == ByLevel then ByLevel
      else ExclusionReason(ANY.(paths := f.paths), section, finding, glob)
    ensures ExclusionReason(ANY.(sections := f.sections), section, finding, glob) in {NotExcluded, BySection}
    ensures ExclusionReason(ANY.(rules := f.rules), section, finding, glob) in {NotExcluded, ByRule}
    ensures ExclusionReason(ANY.(minLevel := f.minLevel), section, finding, glob) in {NotExcluded, ByLevel}
    ensures ExclusionReason(ANY.(paths := f.paths), section, finding, glob) in {NotExcluded, ByPath}
  {
    hide SectionKey, MatchesRules, LevelRank, MatchesPaths;
  }

  /** Which words a query may ask for, and that a normalized query asks for the word it was sent. */
  lemma QueryReads(q: Query, s: Selection)
    ensures LevelValid(q) <==> Reads(q.minLevel, "") || Reads(q.minLevel, "warn") || Reads(q.minLevel, "fail")
    ensures ConfidenceValid(q) <==> TrimSpace(q.minConfidence) == "" || ReadsSure(q.minConfidence, "low")
                                    || ReadsSure(q.minConfidence, "medium") || ReadsSure(q.minConfidence, "high")
    ensures Normalizes(s, q) ==>
      && Reads(q.minLevel, s.minLevel)
      && (TrimSpace(q.minConfidence) == "" ==> s.minConfidence == "")
      && (ConfidenceValid(q) && TrimSpace(q.minConfidence) != "" ==> ReadsSure(q.minConfidence, s.minConfidence))
  {
    hide TrimSpace, Lower, StrictlySorted, WantedSections, Trimmed;
    assert "low"[0] == 'l' && "medium"[0] == 'm' && "high"[0] == 'h';
  }

  // ----- from the query to the filters -----

  lemma LowerKeepsSpace(c: char)
    ensures IsSpace(LowerChar(c)) <==> IsSpace(c)
  {
  }

  lemma {:induction false} LowerTrimsLeft(s: string)
    ensures TrimLeft(Lower(s)) == Lower(TrimLeft(s))
  {
    if s != "" {
      LowerKeepsSpace(s[0]);
      assert Lower(s)[1..] == Lower(s[1..]);
      LowerTrimsLeft(s[1..]);
    }
  }

  lemma {:induction false} LowerTrimsRight(s: string)
    ensures TrimRight(Lower(s)) == Lower(TrimRight(s))
  {
    if s != "" {
      var n := |s| - 1;
      LowerKeepsSpace(s[n]);
      assert Lower(s)[..n] == Lower(s[..n]);
      LowerTrimsRight(s[..n]);
    }
  }

  /** It does not matter whether an id is trimmed or lower-cased first. */
  lemma LowerTrims(s: string)
    ensures TrimSpace(Lower(s)) == Lower(TrimSpace(s))
  {
    LowerTrimsLeft(s);
    LowerTrimsRight(TrimLeft(s));
  }

  lemma TrimmedStays(s: string)
    ensures TrimSpace(TrimSpace(s)) == TrimSpace(s)
  {
    var t := TrimLeft(s);
    TrimLeftExact(s);
    TrimRightExact(t);
    var r := TrimRight(t);
    assert r != "" ==> r[0] == t[0];
    hide IsSpace;
  }

  lemma LowerStays(s: string)
    ensures Lower(Lower(s)) == Lower(s)
  {
  }

  lemma KeyOfTrimmed(v: string)
    ensures TrimSpace(SectionKey(TrimSpace(v))) == TrimSpace(Lower(v))
    ensures TrimSpace(v) == "" <==> TrimSpace(Lower(v)) == ""
  {
    LowerTrims(v);
    LowerTrims(TrimSpace(v));
    TrimmedStays(v);
    TrimmedStays(Lower(v));
    hide TrimSpace;
  }

  /** A query's sections keep the findings of the sections that one of its nonblank values reads as. */
  lemma QuerySections(q: Query, s: Selection, section: string, finding: Finding, glob: Glob)
    requires Normalizes(s, q)
    ensures ExclusionReason(ANY.(sections := s.sections), section, finding, glob) == NotExcluded <==>
      || (forall v :: v in q.sections ==> TrimSpace(v) == "")
      || exists v :: v in q.sections && TrimSpace(v) != "" && TrimSpace(Lower(v)) == TrimSpace(Lower(section))
  {
    forall v ensures TrimSpace(SectionKey(TrimSpace(v))) == TrimSpace(Lower(v)) && (TrimSpace(v) == "" <==> TrimSpace(Lower(v)) == "") {
      KeyOfTrimmed(v);
    }
    hide TrimSpace, Lower, StrictlySorted;
    WantedIff(q, SectionKey(section));
    SectionFilter(s.sections, section, finding, glob);
    NothingIn(s.sections);
  }

  lemma WantedIff(q: Query, key: string)
    ensures key in WantedSections(q) <==> exists v :: v in q.sections && TrimSpace(v) != "" && TrimSpace(Lower(v)) == key
    ensures WantedSections(q) == {} <==> forall v :: v in q.sections ==> TrimSpace(v) == ""
  {
    forall v ensures TrimSpace(SectionKey(TrimSpace(v))) == TrimSpace(Lower(v)) && (TrimSpace(v) == "" <==> TrimSpace(Lower(v)) == "") {
      KeyOfTrimmed(v);
    }
    hide SectionKey, TrimSpace, Lower;
    forall v | v in q.sections && TrimSpace(v) != "" ensures TrimSpace(Lower(v)) in WantedSections(q) {
      assert TrimSpace(v) in Trimmed(q.sections) && SectionKey(TrimSpace(v)) in SectionKeys(Trimmed(q.sections));
    }
  }

  /** A query is refused for a section unless each of its nonblank values reads as the id of a known one. */
  lemma QuerySectionsKnown(q: Query, known: set<string>)
    ensures SectionsKnown(q, known) <==> forall v :: v in q.sections && TrimSpace(v) != "" ==> TrimSpace(Lower(v)) in known
  {
    forall v ensures SectionKey(SectionKey(TrimSpace(v))) == TrimSpace(Lower(v)) {
      LowerTrims(v);
      LowerTrims(TrimSpace(Lower(v)));
      TrimmedStays(v);
      TrimmedStays(Lower(v));
      LowerStays(v);
      LowerTrims(Lower(v));
      hide TrimSpace, Lower;
    }
    hide SectionKey, TrimSpace, Lower;
    forall v | v in q.sections && TrimSpace(v) != "" ensures TrimSpace(v) in Trimmed(q.sections) {
    }
  }

  lemma TrimmedIff(values: seq<string>, x: string)
    ensures x in Trimmed(values) <==> exists v :: v in values && TrimSpace(v) == x && x != ""
    ensures Trimmed(values) == {} <==> forall v :: v in values ==> TrimSpace(v) == ""
  {
    hide TrimSpace;
    forall v | v in values && TrimSpace(v) != "" ensures TrimSpace(v) in Trimmed(values) {
    }
  }

  /** A query's rules keep what one of its nonblank values keeps, trimmed, and its paths likewise. */
  lemma QueryRulesAndPaths(q: Query, s: Selection, section: string, finding: Finding, glob: Glob)
    requires Normalizes(s, q)
    ensures ExclusionReason(ANY.(rules := s.rules), section, finding, glob) == NotExcluded <==>
      || (forall v :: v in q.rules ==> TrimSpace(v) == "")
      || exists v :: v in q.rules && TrimSpace(v) != ""
                  && ExclusionReason(ANY.(rules := [TrimSpace(v)]), section, finding, glob) == NotExcluded
    ensures ExclusionReason(ANY.(paths := s.paths), section, finding, glob) == NotExcluded <==>
      || (forall v :: v in q.paths ==> TrimSpace(v) == "")
      || (TrimSpace(finding.path) != "" && exists v :: v in q.paths && TrimSpace(v) != "" && glob(TrimSpace(v), finding.path))
  {
    RulesFilter(s.rules, section, finding, glob);
    PathsFilter(s.paths, section, finding, glob);
    NothingIn(s.rules);
    NothingIn(s.paths);
    hide TrimSpace, ExclusionReason, StrictlySorted, WantedSections, Level, NormalizedConfidence, Trimmed;
    forall x ensures x in s.rules <==> x in Trimmed(q.rules) {
      assert x in s.rules <==> x in Members(s.rules);
    }
    forall x ensures x in s.paths <==> x in Trimmed(q.paths) {
      assert x in s.paths <==> x in Members(s.paths);
    }
    forall x ensures x in Trimmed(q.rules) <==> exists v :: v in q.rules && TrimSpace(v) == x && x != "" {
      TrimmedIff(q.rules, x);
    }
    forall x ensures x in Trimmed(q.paths) <==> exists v :: v in q.paths && TrimSpace(v) == x && x != "" {
      TrimmedIff(q.paths, x);
    }
    TrimmedIff(q.rules, "");
    TrimmedIff(q.paths, "");
  }

  /** The order of a response: failures, then warnings, then the rest; within one of these the certain before the
      unspecified, and the doubtful last. */
  lemma OrderReads(report: Report, f: Selection, glob: Glob, i: nat, j: nat)
    requires i < j < |OrderedMatches(report, f, glob)|
    ensures var items := OrderedMatches(report, f, glob);
      var a, b := items[i].finding, items[j].finding;
      && (Reads(b.level, "fail") ==> Reads(a.level, "fail"))
      && (Reads(b.level, "warn") ==> Reads(a.level, "fail") || Reads(a.level, "warn"))
      && ((Reads(a.level, "fail") <==> Reads(b.level, "fail")) && (Reads(a.level, "warn") <==> Reads(b.level, "warn")) ==>
            && (ReadsSure(b.confidence, "high") ==> ReadsSure(a.confidence, "high"))
            && (ReadsSure(a.confidence, "low") ==> ReadsSure(b.confidence, "low")))
  {
    GravestFirst(report, f, glob, i, j);
    hide OrderedMatches, TrimSpace, Lower;
    assert "fail" != "warn" by {
      assert "fail"[0] == 'f' && "warn"[0] == 'w';
    }
  }

  /** Where the items break a rule, and where they break it at a level that reads as `word`. */
  ghost function Breaks(items: seq<Item>, rule: string): set<nat> {
    set k: nat | k < |items| && items[k].finding.ruleID == rule
  }

  ghost predicate BreaksAt(items: seq<Item>, rule: string, word: string) {
    exists k :: k in Breaks(items, rule) && Reads(items[k].finding.level, word)
  }

  lemma BreaksNext(items: seq<Item>, item: Item, rule: string)
    ensures |Breaks(items + [item], rule)| == |Breaks(items, rule)| + if item.finding.ruleID == rule then 1 else 0
  {
    assert Breaks(items + [item], rule) == Breaks(items, rule) + if item.finding.ruleID == rule then {|items|} else {};
  }

  lemma BreaksAtNext(items: seq<Item>, item: Item, rule: string, word: string)
    ensures BreaksAt(items + [item], rule, word) <==>
      BreaksAt(items, rule, word) || (item.finding.ruleID == rule && Reads(item.finding.level, word))
  {
    hide Reads;
    var more := items + [item];
    if BreaksAt(items, rule, word) {
      var k :| k in Breaks(items, rule) && Reads(items[k].finding.level, word);
      assert k in Breaks(more, rule) && more[k] == items[k];
    } else if item.finding.ruleID == rule && Reads(item.finding.level, word) {
      assert |items| in Breaks(more, rule) && more[|items|] == item;
    }
  }

  /** The words that a level can read as are the ranks it can have. */
  lemma RankReads(level: string)
    ensures LevelRank(level) <= 2
    ensures Reads(level, "fail") <==> LevelRank(level) == 2
    ensures Reads(level, "warn") <==> LevelRank(level) == 1
  {
    hide TrimSpace, Lower;
    assert "fail"[0] == 'f' && "warn"[0] == 'w';
  }

  /** Findings that agree in everything else are in order of their fingerprints. */
  lemma TiesByFingerprint(report: Report, f: Selection, glob: Glob, i: nat, j: nat)
    requires i < j < |OrderedMatches(report, f, glob)|
    ensures var items := OrderedMatches(report, f, glob);
      var a, b := items[i].finding, items[j].finding;
      a.(fingerprint := b.fingerprint) == b ==> AtMost(a.fingerprint, b.fingerprint)
  {
    OrderedMatchesExactly(report, f, glob);
    hide OrderedMatches, LevelRank, ConfidenceRank;
    assert NotAfter(OrderedMatches(report, f, glob)[i], OrderedMatches(report, f, glob)[j]);
  }

  /** How a tally reads: how many items break the rule, and whether one of them fails or, failing that, warns. */
  lemma {:induction false} TallyReads(items: seq<Item>, rule: string)
    ensures var t := Tally(items, rule);
      && t.ruleID == rule
      && t.count == |Breaks(items, rule)|
      && (Reads(t.level, "fail") <==> BreaksAt(items, rule, "fail"))
      && (Reads(t.level, "warn") <==> BreaksAt(items, rule, "warn") && !BreaksAt(items, rule, "fail"))
  {
    if items == [] {
      assert Breaks(items, rule) == {};
      RankReads("");
      assert LevelRank("") == 0;
    } else {
      var init, last := items[..|items| - 1], items[|items| - 1];
      assert items == init + [last];
      TallyReads(init, rule);
      BreaksNext(init, last, rule);
      BreaksAtNext(init, last, rule, "fail");
      BreaksAtNext(init, last, rule, "warn");
      TallySnoc(init, last, rule);
      RankReads(last.finding.level);
      RankReads(Tally(init, rule).level);
      NoneBroken(init, rule);
      hide Tally, LevelRank, Reads, Breaks, BreaksAt;
    }
  }

  lemma NoneBroken(items: seq<Item>, rule: string)
    ensures Breaks(items, rule) == {} ==> forall word :: !BreaksAt(items, rule, word)
  {
  }

  /** The rules that a summary lists: each with the number of its findings, failing if one of them does and else
      warning if one of them does; the most frequent first. A rule that is left out has no more findings than any listed. */
  lemma TopRulesRead(out: seq<RuleCount>, items: seq<Item>, rule: string, i: nat, j: nat)
    requires IsTop(out, items) && i <= j < |out|
    ensures var e := out[i];
      && e.count == |Breaks(items, e.ruleID)| >= |Breaks(items, out[j].ruleID)|
      && (Reads(e.level, "fail") <==> BreaksAt(items, e.ruleID, "fail"))
      && (Reads(e.level, "warn") <==> BreaksAt(items, e.ruleID, "warn") && !BreaksAt(items, e.ruleID, "fail"))
    ensures |Breaks(items, rule)| > 0 && (forall e :: e in out ==> e.ruleID != rule) ==>
      |out| == 10 && |Breaks(items, rule)| <= out[j].count
  {
    TallyReads(items, out[i].ruleID);
    TallyReads(items, out[j].ruleID);
    TallyReads(items, rule);
    assert out[i] in out && out[j] in out;
    hide Tally, Reads, Breaks, BreaksAt, AtMost;
  }

  // ----- what a page shows of a finding -----

  /** A finding of unspecified confidence is shown as a medium one. */
  lemma ConfidenceShown(item: Item, verbose: bool)
    ensures var given, shown := item.finding.confidence, Compact(item, verbose).confidence;
      && (shown == "high" <==> ReadsSure(given, "high")) && (shown == "low" <==> ReadsSure(given, "low"))
      && (shown == "medium" <==> !ReadsSure(given, "high") && !ReadsSure(given, "low"))
  {
    hide TrimSpace, Lower, Location;
    assert "low"[0] == 'l' && "medium"[0] == 'm' && "high"[0] == 'h';
  }

  /** A page says where a finding is, at which line if it has one, and what is wrong and how to mend it; its evidence
      only on demand. */
  lemma FindingShown(item: Item, verbose: bool)
    ensures var f, v := item.finding, Compact(item, verbose);
      && v.ruleID == f.ruleID && v.level == f.level && v.section == item.section && v.path == f.path && v.line == f.line
      && v.message == f.message && v.howToFix == TrimSpace(f.howToFix)
      && (f.path != "" && f.line > 0 ==> v.location == f.path + ":" + Decimal(f.line))
      && (f.path == "" || f.line <= 0 ==> v.location == f.path)
      && (verbose <==> v.evidence.Evidence?)
      && (verbose ==> v.evidence == Evidence(f.title, f.severity, f.why, f.column, f.fingerprint, f.metadata))
  {
    hide TrimSpace, Lower, Decimal, NormalizedConfidence;
  }
}
