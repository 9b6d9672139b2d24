/** `mcp_findings_query.go`: which findings a query selects, and when two queries are the same. */
module FindingsQuery {
  import opened Ordering
  import opened Sequences
  import opened Text
  import opened Wrappers

  /** `core.Finding`, without the fields no view shows. */
  datatype Finding = Finding(
    ruleID: string, level: string, severity: string, confidence: string, title: string, message: string,
    why: string, howToFix: string, path: string, line: int, column: int, fingerprint: string,
    metadata: map<string, string>)

  datatype Section = Section(id: string, findings: seq<Finding>, confidenceFiltered: nat)

  /** The five filters that decide which findings match. `fingerprint` hashes exactly these, so the
      model uses the value itself as its fingerprint. */
  datatype Selection = Selection(
    sections: seq<string>, rules: seq<string>, minLevel: string, minConfidence: string, paths: seq<string>)

  /** `mcpFindingFilters`: a selection and how much of it one page shows. */
  datatype Filters = Filters(selection: Selection, maxFindings: nat, verbose: bool)

  datatype Reason = NotExcluded | BySection | ByRule | ByLevel | ByPath

  function SectionKey(id: string): string {
    TrimSpace(Lower(id))
  }

  function LevelRank(level: string): nat {
    var l := Lower(TrimSpace(level));
    if l == "fail" then 2 else if l == "warn" then 1 else 0
  }

  /** `core.NormalizedConfidence`. */
  function NormalizedConfidence(value: string): string {
    var v := TrimSpace(Lower(value));
    if v == "high" || v == "medium" || v == "low" then v else ""
  }

  /** `core.ConfidenceRank`: unspecified ranks as medium. */
  function ConfidenceRank(value: string): nat {
    var v := NormalizedConfidence(value);
    if v == "high" then 3 else if v == "low" then 1 else 2
  }

  predicate HasSuffix(s: string, suffix: string) {
    |s| >= |suffix| && s[|s| - |suffix|..] == suffix
  }

  predicate RuleMatches(entry: string, ruleID: string) {
    if HasSuffix(entry, "*") then entry[..|entry| - 1] <= ruleID
    else (HasSuffix(entry, ".") && entry <= ruleID) || ruleID == entry
  }

  /** `matchesRuleFilter`. */
  predicate MatchesRules(entries: seq<string>, ruleID: string) {
    exists e :: e in entries && RuleMatches(e, ruleID)
  }

  /** `matchesPathFilter`, for the glob dialect `glob`. */
  predicate MatchesPaths(patterns: seq<string>, path: string, glob: (string, string) -> bool) {
    !Blank(path) && exists p :: p in patterns && glob(p, path)
  }

  /** `exclusionReason`: the first filter that the finding fails. */
  function ExclusionReason(f: Selection, section: string, finding: Finding, glob: (string, string) -> bool): Reason {
    if f.sections != [] && SectionKey(section) !in f.sections then BySection
    else if f.rules != [] && !MatchesRules(f.rules, finding.ruleID) then ByRule
    else if f.minLevel != "" && LevelRank(finding.level) < LevelRank(f.minLevel) then ByLevel
    else if f.paths != [] && !MatchesPaths(f.paths, finding.path, glob) then ByPath
    else NotExcluded
  }

  const ANY := Selection([], [], "", "", [])

  /** The filters conjoin: a finding matches a selection exactly when it matches each of its filters on its own. */
  lemma FiltersConjoin(f: Selection, section: string, finding: Finding, glob: (string, string) -> bool)
    ensures ExclusionReason(f, section, finding, glob) == NotExcluded <==>
      && ExclusionReason(ANY.(sections := f.sections), section, finding, glob) == NotExcluded
      && ExclusionReason(ANY.(rules := f.rules), section, finding, glob) == NotExcluded
      && ExclusionReason(ANY.(minLevel := f.minLevel), section, finding, glob) == NotExcluded
      && ExclusionReason(ANY.(paths := f.paths), section, finding, glob) == NotExcluded
  {
    hide SectionKey, MatchesRules, LevelRank, MatchesPaths;
  }

  // ----- cleaning a list of filter values -----

  ghost function Trimmed(values: seq<string>): set<string> {
    set v | v in values && TrimSpace(v) != "" :: TrimSpace(v)
  }

  /** In strictly increasing order, hence without repetition. */
  ghost predicate StrictlySorted(s: seq<string>) {
    forall i, j :: 0 <= i < j < |s| ==> AtMost(s[i], s[j]) && s[i] != s[j]
  }

  /** The loop of `cleanStringList`. */
  method TrimAndDedupe(values: seq<string>) returns (out: seq<string>)
    ensures NoDuplicates(out) && Members(out) == Trimmed(values)
  {
    hide TrimSpace;
    out := [];
    var seen: set<string> := {};
    for n := 0 to |values|
      invariant seen == Members(out) == Trimmed(values[..n]) && NoDuplicates(out)
    {
      assert values[..n + 1] == values[..n] + [values[n]];
      TrimmedGrows(values[..n], values[n]);
      hide Trimmed;
      var trimmed := TrimSpace(values[n]);
      if trimmed == "" || trimmed in seen {
        continue;
      }
      seen := seen + {trimmed};
      MembersSnoc(out, trimmed);
      out := out + [trimmed];
    }
    assert values[..|values|] == values;
  }

  lemma MembersSnoc(s: seq<string>, x: string)
    ensures Members(s + [x]) == Members(s) + {x}
  {
  }

  function Itself(s: string): string {
    s
  }

  /** `cleanStringList`: the trimmed, nonblank values, sorted, each once. */
  method CleanStringList(values: seq<string>) returns (out: seq<string>)
    ensures StrictlySorted(out) && Members(out) == Trimmed(values)
  {
    var kept := TrimAndDedupe(values);
    hide Trimmed;
    ByKeyIsPreorder(Itself);
    out := Sort(kept, ByKey(Itself));
    SortKeepsDistinct(kept, out);
  }

  lemma TrimmedGrows(values: seq<string>, v: string)
    ensures Trimmed(values + [v]) == Trimmed(values) + (if TrimSpace(v) == "" then {} else {TrimSpace(v)})
  {
    hide TrimSpace;
    assert forall x :: x in values + [v] <==> x in values || x == v;
  }

  lemma SortKeepsDistinct(s: seq<string>, sorted: seq<string>)
    requires multiset(s) == multiset(sorted) && NoDuplicates(s)
    requires SortedBy(sorted, ByKey(Itself))
    ensures StrictlySorted(sorted) && Members(sorted) == Members(s)
  {
    PermutationKeepsDistinct(s, sorted);
    forall i, j | 0 <= i < j < |sorted| ensures AtMost(sorted[i], sorted[j]) {
      assert ByKey(Itself)(sorted[i], sorted[j]);
      assert Itself(sorted[i]) == sorted[i] && Itself(sorted[j]) == sorted[j];
    }
  }

  lemma NothingIn(s: seq<string>)
    ensures s == [] <==> Members(s) == {}
  {
    if s != [] {
      assert s[0] in Members(s);
    }
  }

  /** A strictly sorted list is determined by its elements, so the order and repetition of the
      values a client sends do not change the fingerprint of its query. */
  lemma {:induction false} CleanListUnique(a: seq<string>, b: seq<string>)
    requires StrictlySorted(a) && StrictlySorted(b) && Members(a) == Members(b)
    ensures a == b
    decreases |a|
  {
    hide AtMost;
    NothingIn(a);
    NothingIn(b);
    if a != [] {
      LastsAgree(a, b);
      var x, m, n := a[|a| - 1], |a| - 1, |b| - 1;
      assert a == a[..m] + [x] && b == b[..n] + [x];
      assert Members(a[..m]) == Members(a) - {x} && Members(b[..n]) == Members(b) - {x};
      CleanListUnique(a[..m], b[..n]);
    }
  }

  lemma LastsAgree(a: seq<string>, b: seq<string>)
    requires StrictlySorted(a) && StrictlySorted(b) && Members(a) == Members(b) && a != [] && b != []
    ensures a[|a| - 1] == b[|b| - 1]
  {
    var x, y := a[|a| - 1], b[|b| - 1];
    assert x in Members(b) && y in Members(a);
    var i :| 0 <= i < |b| && b[i] == x;
    var j :| 0 <= j < |a| && a[j] == y;
    if x != y {
      AtMostAntisymmetric(x, y);
    }
  }

  // ----- normalizing a query -----

  const DEFAULT_MAX_FINDINGS: nat := 50
  const MAX_FINDINGS_CEILING: nat := 500

  /** `mcpFindingQuery`, without its cursor. */
  datatype Query = Query(
    sections: seq<string>, rules: seq<string>, minLevel: string, minConfidence: string, paths: seq<string>,
    maxFindings: Option<int>, verbose: bool)

  datatype QueryError = UnknownSection(section: string) | BadMinLevel | BadMinConfidence | BadMaxFindings

  ghost function SectionKeys(sections: set<string>): set<string> {
    set v | v in sections :: SectionKey(v)
  }

  /** The sections a query asks for, by key. */
  ghost function WantedSections(q: Query): set<string> {
    set k | k in SectionKeys(Trimmed(q.sections)) && TrimSpace(k) != "" :: TrimSpace(k)
  }

  ghost predicate SectionsKnown(q: Query, known: set<string>) {
    forall v <- Trimmed(q.sections) :: SectionKey(SectionKey(v)) in known
  }

  function Level(q: Query): string {
    Lower(TrimSpace(q.minLevel))
  }

  predicate LevelValid(q: Query) {
    Level(q) == "" || Level(q) == "warn" || Level(q) == "fail"
  }

  predicate ConfidenceValid(q: Query) {
    TrimSpace(q.minConfidence) == "" || NormalizedConfidence(q.minConfidence) != ""
  }

  /** `normalizeMaxFindings`. */
  function PageSize(raw: Option<int>): (r: Result<nat, QueryError>)
    ensures r.Err? <==> raw.Some? && raw.value < 0
    ensures r.Ok? ==> r.value <= MAX_FINDINGS_CEILING
    ensures raw == None ==> r == Ok(50)
    ensures raw.Some? && 0 <= raw.value <= MAX_FINDINGS_CEILING ==> r == Ok(raw.value)
    ensures raw.Some? && raw.value > 500 ==> r == Ok(500)
  {
    match raw
    case None => Ok(DEFAULT_MAX_FINDINGS)
    case Some(n) => if n < 0 then Err(BadMaxFindings) else if n > MAX_FINDINGS_CEILING then Ok(MAX_FINDINGS_CEILING) else Ok(n)
  }

  /** Filters whose lists are sorted sets of what the query asks for. */
  ghost predicate Normalizes(s: Selection, q: Query) {
    && StrictlySorted(s.sections) && Members(s.sections) == WantedSections(q)
    && StrictlySorted(s.rules) && Members(s.rules) == Trimmed(q.rules)
    && StrictlySorted(s.paths) && Members(s.paths) == Trimmed(q.paths)
    && s.minLevel == Level(q)
    && s.minConfidence == (if TrimSpace(q.minConfidence) == "" then "" else NormalizedConfidence(q.minConfidence))
  }

  /** `normalizeSectionFilter`. */
  method NormalizeSections(q: Query, known: set<string>) returns (result: Result<seq<string>, QueryError>)
    ensures result.Ok? <==> SectionsKnown(q, known)
    ensures result.Err? ==> result.error.UnknownSection?
    ensures result.Ok? ==> StrictlySorted(result.value) && Members(result.value) == WantedSections(q)
  {
    var sections := CleanStringList(q.sections);
    hide SectionKey, TrimSpace, StrictlySorted;
    var keys := [];
    for i := 0 to |sections|
      invariant |keys| == i && forall k :: 0 <= k < i ==> keys[k] == SectionKey(sections[k]) && SectionKey(keys[k]) in known
    {
      var key := SectionKey(sections[i]);
      if SectionKey(key) !in known {
        assert sections[i] in Members(sections);
        return Err(UnknownSection(sections[i]));
      }
      keys := keys + [key];
    }
    KeysOf(sections, keys);
    var cleaned := CleanStringList(keys);
    assert Trimmed(keys) == WantedSections(q);
    forall v | v in Trimmed(q.sections) ensures SectionKey(SectionKey(v)) in known {
      assert v in Members(sections);
    }
    return Ok(cleaned);
  }

  lemma KeysOf(sections: seq<string>, keys: seq<string>)
    requires |keys| == |sections| && forall k :: 0 <= k < |keys| ==> keys[k] == SectionKey(sections[k])
    ensures Members(keys) == SectionKeys(Members(sections))
  {
    hide SectionKey;
    forall k | k in SectionKeys(Members(sections)) ensures k in Members(keys) {
      var v :| v in Members(sections) && SectionKey(v) == k;
      var i :| 0 <= i < |sections| && sections[i] == v;
      assert keys[i] == k;
    }
  }

  /** `normalize`. */
  method Normalize(q: Query, known: set<string>) returns (result: Result<Filters, QueryError>)
    ensures result.Ok? <==>
      SectionsKnown(q, known) && LevelValid(q) && ConfidenceValid(q) && !(q.maxFindings.Some? && q.maxFindings.value < 0)
    ensures result.Ok? ==>
      && Normalizes(result.value.selection, q)
      && result.value.verbose == q.verbose && PageSize(q.maxFindings) == Ok(result.value.maxFindings)
    ensures result.Err? ==>
      if !SectionsKnown(q, known) then result.error.UnknownSection?
      else result.error == if !LevelValid(q) then BadMinLevel else if !ConfidenceValid(q) then BadMinConfidence else BadMaxFindings
  {
    hide Trimmed, StrictlySorted, SectionsKnown, WantedSections, TrimSpace, Lower;
    var rules := CleanStringList(q.rules);
    var paths := CleanStringList(q.paths);
    var sections := NormalizeSections(q, known);
    if sections.Err? {
      return Err(sections.error);
    }
    if !LevelValid(q) {
      return Err(BadMinLevel);
    }
    if !ConfidenceValid(q) {
      return Err(BadMinConfidence);
    }
    var size := PageSize(q.maxFindings);
    if size.Err? {
      return Err(size.error);
    }
    var confidence := if TrimSpace(q.minConfidence) == "" then "" else NormalizedConfidence(q.minConfidence);
    return Ok(Filters(Selection(sections.value, rules, Level(q), confidence, paths), size.value, q.verbose));
  }

  /** The two queries ask for the same findings. */
  ghost predicate SameRequest(a: Query, b: Query) {
    && WantedSections(a) == WantedSections(b) && Trimmed(a.rules) == Trimmed(b.rules) && Trimmed(a.paths) == Trimmed(b.paths)
    && Level(a) == Level(b)
    && TrimSpace(a.minConfidence) == TrimSpace(b.minConfidence)
    && NormalizedConfidence(a.minConfidence) == NormalizedConfidence(b.minConfidence)
  }

  /** The order, repetition and padding of list values, the page size and the verbosity leave the selection, and so
      the cursors issued for it, as they are. */
  lemma SameRequestSameSelection(a: Query, b: Query, s: Selection, t: Selection)
    requires SameRequest(a, b) && Normalizes(s, a) && Normalizes(t, b)
    ensures s == t
  {
    hide StrictlySorted, Members, Trimmed, WantedSections;
    CleanListUnique(s.sections, t.sections);
    CleanListUnique(s.rules, t.rules);
    CleanListUnique(s.paths, t.paths);
  }
}
