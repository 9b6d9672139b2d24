/** `change_metrics.go`: the streaming fold over a log, which holds one commit at a time. */
module ChangeMetrics {
  import opened Ordering
  import opened Sequences
  import opened ChangeLog
  import opened ChangeBatch

  /** `FileChangeMetrics`. */
  datatype FileMetrics = FileMetrics(
    path: string, commits: nat, additions: nat, deletions: nat, churn: nat, defectCommits: nat,
    subjects: seq<string>, partners: map<string, nat>)

  function FirstFew(subjects: seq<string>): seq<string> {
    if |subjects| <= MAX_SUBJECTS then subjects else subjects[..MAX_SUBJECTS]
  }

  /** The metrics of a path are its totals over the commits; every stored co-change count is exact. */
  ghost predicate Fits(m: FileMetrics, commits: seq<Commit>, path: string, isDefect: string -> bool) {
    var t := TotalsOf(commits, path, isDefect);
    && m.path == path && m.commits == t.commits && m.additions == t.additions && m.deletions == t.deletions
    && m.churn == t.additions + t.deletions && m.defectCommits == t.defects && m.subjects == FirstFew(t.subjects)
    && forall q <- m.partners :: m.partners[q] == CoChanges(commits, path, q) > 0
  }

  ghost function Relations(files: map<string, FileMetrics>): set<(string, string)> {
    set p, q | p in files && q in files[p].partners :: (p, q)
  }

  /** The report over some commits: a row for each touched path, and every co-change relation until the cap is reached. */
  ghost predicate Summarizes(files: map<string, FileMetrics>, stored: nat, commits: seq<Commit>, isDefect: string -> bool) {
    && files.Keys == Touched(commits)
    && (forall p <- files :: Fits(files[p], commits, p, isDefect))
    && stored == |Relations(files)| <= MAX_RELATIONS
    && (stored < MAX_RELATIONS ==> Pairs(commits) <= Relations(files))
  }

  /** However the cap falls, exactly that many relations are stored. */
  lemma StoredRelations(files: map<string, FileMetrics>, stored: nat, commits: seq<Commit>, isDefect: string -> bool)
    requires Summarizes(files, stored, commits, isDefect)
    ensures stored == if |Pairs(commits)| < 100_000 then |Pairs(commits)| else 100_000
    ensures forall p, q :: p in files && q in files[p].partners ==> files[p].partners[q] == CoChanges(commits, p, q)
  {
    forall pair | pair in Relations(files) ensures pair in Pairs(commits) {
      PairsWhenCoChanged(commits, pair.0, pair.1);
      assert Fits(files[pair.0], commits, pair.0, isDefect);
    }
    hide Fits;
    SubsetSize(Relations(files), Pairs(commits));
    if stored < MAX_RELATIONS {
      assert Relations(files) == Pairs(commits);
    }
    forall p, q | p in files && q in files[p].partners ensures files[p].partners[q] == CoChanges(commits, p, q) {
      PartnerExact(files[p], commits, p, isDefect, q);
    }
  }

  lemma PartnerExact(m: FileMetrics, commits: seq<Commit>, p: string, isDefect: string -> bool, q: string)
    requires Fits(m, commits, p, isDefect) && q in m.partners
    ensures m.partners[q] == CoChanges(commits, p, q)
  {
  }

  lemma SubsetSize<T>(a: set<T>, b: set<T>)
    requires a <= b
    ensures |a| <= |b|
  {
    assert b == a + (b - a);
  }

  // ----- one path of a commit -----

  /** Every partner in `seen` was counted once more; those that were not there may have been left out. */
  ghost predicate Advanced(m: map<string, nat>, m': map<string, nat>, path: string, seen: set<string>) {
    && m.Keys <= m'.Keys <= m.Keys + (seen - {path})
    && forall q <- m' :: m'[q] == (if q in m then m[q] else 0) + (if q in seen && q != path then 1 else 0)
  }

  /** How many partners are new. */
  ghost function Grown(m: map<string, nat>, m': map<string, nat>): nat {
    |m'.Keys - m.Keys|
  }

  lemma NothingCounted(m: map<string, nat>, path: string)
    ensures Advanced(m, m, path, {}) && Grown(m, m) == 0
  {
    assert m.Keys - m.Keys == {};
  }

  lemma CountedOnce(m: map<string, nat>, m': map<string, nat>, path: string, seen: set<string>, q: string)
    requires Advanced(m, m', path, seen) && q !in seen
    ensures q == path || q !in m' ==> Advanced(m, m', path, seen + {q})
    ensures q != path && q in m' ==> Advanced(m, m'[q := m'[q] + 1], path, seen + {q})
    ensures q != path && q !in m' ==> Advanced(m, m'[q := 1], path, seen + {q})
  {
  }

  lemma KeysGrow(m: map<string, nat>, m': map<string, nat>, path: string, seen: set<string>)
    requires Advanced(m, m', path, seen)
    ensures m.Keys <= m'.Keys
  {
  }

  lemma KnownCounted(m: map<string, nat>, m': map<string, nat>, q: string, v: nat)
    requires q in m'
    ensures m'[q := v].Keys == m'.Keys && Grown(m, m'[q := v]) == Grown(m, m')
  {
    UpdatedKeys(m', q, v);
    assert m'.Keys + {q} == m'.Keys;
  }

  lemma NewCounted(m: map<string, nat>, m': map<string, nat>, q: string, v: nat)
    requires q !in m' && m.Keys <= m'.Keys
    ensures m'[q := v].Keys == m'.Keys + {q} && Grown(m, m'[q := v]) == Grown(m, m') + 1
  {
    UpdatedKeys(m', q, v);
    OneMore(m.Keys, m'.Keys, q);
  }

  lemma UpdatedKeys(m: map<string, nat>, q: string, v: nat)
    ensures m[q := v].Keys == m.Keys + {q}
  {
  }

  lemma OneMore(a: set<string>, b: set<string>, q: string)
    requires a <= b && q !in b
    ensures |(b + {q}) - a| == |b - a| + 1
  {
    assert (b + {q}) - a == (b - a) + {q};
  }

  lemma MembersNext(s: seq<string>, j: nat)
    requires j < |s| && NoDuplicates(s)
    ensures Members(s[..j + 1]) == Members(s[..j]) + {s[j]} && s[j] !in Members(s[..j])
  {
    assert s[..j + 1] == s[..j] + [s[j]];
  }

  /** The loop over the partners of one path. */
  method CountPartners(partners: map<string, nat>, path: string, paths: seq<string>, stored: nat)
    returns (partners': map<string, nat>, stored': nat)
    requires NoDuplicates(paths) && stored <= MAX_RELATIONS
    ensures Advanced(partners, partners', path, Members(paths))
    ensures stored' == stored + Grown(partners, partners') <= MAX_RELATIONS
    ensures stored' < MAX_RELATIONS ==> Members(paths) - {path} <= partners'.Keys
  {
    partners', stored' := partners, stored;
    NothingCounted(partners, path);
    hide Advanced, Grown;
    ghost var seen: set<string> := {};
    for j := 0 to |paths|
      invariant seen == Members(paths[..j])
      invariant Advanced(partners, partners', path, seen)
      invariant stored' == stored + Grown(partners, partners') <= MAX_RELATIONS
      invariant stored' < MAX_RELATIONS ==> seen - {path} <= partners'.Keys
    {
      var q := paths[j];
      MembersNext(paths, j);
      CountedOnce(partners, partners', path, seen, q);
      KeysGrow(partners, partners', path, seen);
      hide NoDuplicates, Members;
      if q != path {
        if q in partners' {
          KnownCounted(partners, partners', q, partners'[q] + 1);
          partners' := partners'[q := partners'[q] + 1];
        } else if stored' < MAX_RELATIONS {
          NewCounted(partners, partners', q, 1);
          partners' := partners'[q := 1];
          stored' := stored' + 1;
        }
      }
      seen := seen + {q};
    }
    assert paths[..|paths|] == paths;
  }

  const BLANK := FileMetrics("", 0, 0, 0, 0, 0, [], map[])

  /** The metrics that `flush` starts from. */
  function Before(files: map<string, FileMetrics>, path: string): FileMetrics {
    (if path in files then files[path] else BLANK).(path := path)
  }

  /** The metrics of one path after one more commit, apart from its partners. */
  function Counted(m: FileMetrics, subject: string, delta: Delta, defect: bool): FileMetrics {
    m.(commits := m.commits + 1, additions := m.additions + delta.additions, deletions := m.deletions + delta.deletions,
       churn := m.churn + (delta.additions + delta.deletions), defectCommits := m.defectCommits + (if defect then 1 else 0),
       subjects := if subject != "" && |m.subjects| < MAX_SUBJECTS then m.subjects + [subject] else m.subjects)
  }

  lemma {:induction false} UntouchedTotals(commits: seq<Commit>, path: string, isDefect: string -> bool)
    requires path !in Touched(commits)
    ensures TotalsOf(commits, path, isDefect) == NOTHING
  {
    if commits != [] {
      var init, last := commits[..|commits| - 1], commits[|commits| - 1];
      assert commits == init + [last];
      TouchedSnoc(init, last);
      UntouchedTotals(init, path, isDefect);
    }
  }

  lemma BeforeFits(files: map<string, FileMetrics>, commits: seq<Commit>, path: string, isDefect: string -> bool)
    requires if path in files then Fits(files[path], commits, path, isDefect) else path !in Touched(commits)
    ensures Fits(Before(files, path), commits, path, isDefect)
  {
    if path !in files {
      UntouchedTotals(commits, path, isDefect);
    }
  }

  lemma CountedFits(m: FileMetrics, commits: seq<Commit>, c: Commit, path: string, isDefect: string -> bool,
                    partners: map<string, nat>)
    requires Fits(m, commits, path, isDefect) && path in c.files
    requires Advanced(m.partners, partners, path, c.files.Keys)
    requires forall q <- partners :: q !in m.partners ==> CoChanges(commits, path, q) == 0
    ensures Fits(Counted(m, c.subject, c.files[path], isDefect(c.subject)).(partners := partners), commits + [c], path, isDefect)
  {
    TotalsSnoc(commits, c, path, isDefect);
    forall q {
      CoChangesSnoc(commits, c, path, q);
    }
    hide TotalsOf, CoChanges;
    var t := TotalsOf(commits, path, isDefect);
    FewMore(t.subjects, c.subject);
  }

  lemma FewMore(subjects: seq<string>, subject: string)
    ensures FirstFew(subjects + [subject])
         == if |FirstFew(subjects)| < MAX_SUBJECTS then FirstFew(subjects) + [subject] else FirstFew(subjects)
    ensures FirstFew(subjects + []) == FirstFew(subjects)
  {
    assert subjects + [] == subjects;
  }

  lemma OtherFits(m: FileMetrics, commits: seq<Commit>, c: Commit, path: string, isDefect: string -> bool)
    requires Fits(m, commits, path, isDefect) && path !in c.files
    ensures Fits(m, commits + [c], path, isDefect)
  {
    TotalsSnoc(commits, c, path, isDefect);
    forall q {
      CoChangesSnoc(commits, c, path, q);
    }
    hide TotalsOf, CoChanges;
  }

  // ----- a commit half flushed -----

  ghost function PairsFrom(done: set<string>, c: Commit): set<(string, string)> {
    set p, q | p in done && q in c.files && p != q :: (p, q)
  }

  /** The report while `flush` has dealt with the paths in `done`. */
  ghost predicate Partly(files: map<string, FileMetrics>, stored: nat, commits: seq<Commit>, c: Commit, done: set<string>,
                         isDefect: string -> bool) {
    && files.Keys == Touched(commits) + done
    && (forall p <- files :: Fits(files[p], if p in done then commits + [c] else commits, p, isDefect))
    && stored == |Relations(files)| <= MAX_RELATIONS
    && (stored < MAX_RELATIONS ==> Pairs(commits) + PairsFrom(done, c) <= Relations(files))
  }

  lemma FlushStarts(files: map<string, FileMetrics>, stored: nat, commits: seq<Commit>, c: Commit, isDefect: string -> bool)
    requires Summarizes(files, stored, commits, isDefect)
    ensures Partly(files, stored, commits, c, {}, isDefect)
  {
    hide Fits, Pairs, Touched, Relations;
    assert PairsFrom({}, c) == {};
  }

  lemma FlushEnds(files: map<string, FileMetrics>, stored: nat, commits: seq<Commit>, c: Commit, isDefect: string -> bool)
    requires Partly(files, stored, commits, c, c.files.Keys, isDefect)
    ensures Summarizes(files, stored, commits + [c], isDefect)
  {
    hide Fits, Relations, Pairs, Touched;
    TouchedSnoc(commits, c);
    PairsSnoc(commits, c);
    assert PairsFrom(c.files.Keys, c) == PairsOf(c);
    forall p <- files ensures Fits(files[p], commits + [c], p, isDefect) {
      if p !in c.files {
        OtherFits(files[p], commits, c, p, isDefect);
      }
    }
  }

  ghost function Row(path: string, qs: set<string>): set<(string, string)> {
    set q | q in qs :: (path, q)
  }

  lemma {:induction false} RowSize(path: string, qs: set<string>)
    ensures |Row(path, qs)| == |qs|
    decreases |qs|
  {
    if qs != {} {
      var q :| q in qs;
      RowSize(path, qs - {q});
      assert Row(path, qs) == Row(path, qs - {q}) + {(path, q)};
    }
  }

  lemma RelationsGrow(files: map<string, FileMetrics>, path: string, m: FileMetrics)
    requires Before(files, path).partners.Keys <= m.partners.Keys
    ensures var added := Row(path, m.partners.Keys - Before(files, path).partners.Keys);
      Relations(files[path := m]) == Relations(files) + added && Relations(files) !! added
  {
    var files' := files[path := m];
    var added := Row(path, m.partners.Keys - Before(files, path).partners.Keys);
    forall p, q ensures (p, q) in Relations(files') <==> (p, q) in Relations(files) + added {
    }
  }

  /** One round of the loop of `flush`. */
  lemma NextFile(files: map<string, FileMetrics>, stored: nat, commits: seq<Commit>, c: Commit, done: set<string>,
                 isDefect: string -> bool, path: string, partners: map<string, nat>, stored': nat)
    requires Partly(files, stored, commits, c, done, isDefect) && path in c.files && path !in done
    requires Advanced(Before(files, path).partners, partners, path, c.files.Keys)
    requires stored' == stored + Grown(Before(files, path).partners, partners) <= MAX_RELATIONS
    requires stored' < MAX_RELATIONS ==> c.files.Keys - {path} <= partners.Keys
    ensures var m := Counted(Before(files, path), c.subject, c.files[path], isDefect(c.subject)).(partners := partners);
      Partly(files[path := m], stored', commits, c, done + {path}, isDefect)
  {
    var before := Before(files, path);
    var m := Counted(before, c.subject, c.files[path], isDefect(c.subject)).(partners := partners);
    PartlyKnows(files, stored, commits, c, done, isDefect, path);
    hide Partly;
    NewPartnersAreNew(files, stored, commits, path, before, partners);
    BeforeFits(files, commits, path, isDefect);
    hide Fits, Pairs, Touched, PairsFrom, Relations;
    CountedFits(before, commits, c, path, isDefect, partners);
    KeysGrow(before.partners, partners, path, c.files.Keys);
    assert m.partners == partners;
    hide Before, Counted, Advanced, Grown;
    RelationsSize(files, path, m);
    AddedRelations(files, stored, commits, c, done, path, m, stored');
    PartlyNext(files, stored, commits, c, done, isDefect, path, m, stored');
  }

  lemma PartlyKnows(files: map<string, FileMetrics>, stored: nat, commits: seq<Commit>, c: Commit, done: set<string>,
                    isDefect: string -> bool, path: string)
    requires Partly(files, stored, commits, c, done, isDefect) && path !in done
    ensures if path in files then Fits(files[path], commits, path, isDefect) else path !in Touched(commits)
    ensures stored == |Relations(files)|
    ensures stored < MAX_RELATIONS ==> Pairs(commits) + PairsFrom(done, c) <= Relations(files)
    ensures stored < MAX_RELATIONS ==> Pairs(commits) <= Relations(files)
  {
    hide Fits, Pairs, Touched, PairsFrom, Relations;
  }

  lemma PartlyNext(files: map<string, FileMetrics>, stored: nat, commits: seq<Commit>, c: Commit, done: set<string>,
                   isDefect: string -> bool, path: string, m: FileMetrics, stored': nat)
    requires Partly(files, stored, commits, c, done, isDefect) && Fits(m, commits + [c], path, isDefect)
    requires stored' == |Relations(files[path := m])| <= MAX_RELATIONS
    requires stored' < MAX_RELATIONS ==> Pairs(commits) + PairsFrom(done + {path}, c) <= Relations(files[path := m])
    ensures Partly(files[path := m], stored', commits, c, done + {path}, isDefect)
  {
    hide Fits, Pairs, Touched, PairsFrom, Relations;
  }

  lemma RelationsSize(files: map<string, FileMetrics>, path: string, m: FileMetrics)
    requires Before(files, path).partners.Keys <= m.partners.Keys
    ensures |Relations(files[path := m])| == |Relations(files)| + Grown(Before(files, path).partners, m.partners)
    ensures Relations(files) <= Relations(files[path := m])
  {
    RelationsGrow(files, path, m);
    hide Relations, Before;
    RowSize(path, m.partners.Keys - Before(files, path).partners.Keys);
  }

  lemma NewPartnersAreNew(files: map<string, FileMetrics>, stored: nat, commits: seq<Commit>, path: string,
                          before: FileMetrics, partners: map<string, nat>)
    requires before == Before(files, path)
    requires stored + Grown(before.partners, partners) <= MAX_RELATIONS
    requires stored < MAX_RELATIONS ==> Pairs(commits) <= Relations(files)
    ensures forall q <- partners :: q !in before.partners ==> CoChanges(commits, path, q) == 0
  {
    forall q <- partners | q !in before.partners ensures CoChanges(commits, path, q) == 0 {
      assert q in partners.Keys - before.partners.Keys;
      PairsWhenCoChanged(commits, path, q);
      hide Pairs, CoChanges;
      assert (path, q) !in Relations(files);
    }
  }

  lemma AddedRelations(files: map<string, FileMetrics>, stored: nat, commits: seq<Commit>, c: Commit, done: set<string>,
                       path: string, m: FileMetrics, stored': nat)
    requires stored < MAX_RELATIONS ==> Pairs(commits) + PairsFrom(done, c) <= Relations(files)
    requires stored <= stored' && Relations(files) <= Relations(files[path := m])
    requires stored' < MAX_RELATIONS ==> c.files.Keys - {path} <= m.partners.Keys
    ensures stored' < MAX_RELATIONS ==> Pairs(commits) + PairsFrom(done + {path}, c) <= Relations(files[path := m])
  {
    hide Pairs;
    var files' := files[path := m];
    if stored' < MAX_RELATIONS {
      forall p, q | (p, q) in PairsFrom(done + {path}, c) ensures (p, q) in Relations(files') {
        if p == path {
          assert q in files'[path].partners;
        } else {
          assert (p, q) in PairsFrom(done, c);
        }
      }
    }
  }

  // ----- the parser -----

  function Itself(s: string): string {
    s
  }

  /** The paths of a commit, sorted. */
  method SortedPaths(files: map<string, Delta>) returns (paths: seq<string>)
    ensures NoDuplicates(paths) && Members(paths) == files.Keys && SortedBy(paths, ByKey(Itself))
  {
    var unsorted: seq<string>, left := [], files.Keys;
    while left != {}
      invariant left <= files.Keys && NoDuplicates(unsorted) && Members(unsorted) == files.Keys - left
      decreases |left|
    {
      var path :| path in left;
      assert Members(unsorted + [path]) == Members(unsorted) + {path};
      unsorted, left := unsorted + [path], left - {path};
    }
    ByKeyIsPreorder(Itself);
    paths := Sort(unsorted, ByKey(Itself));
    PermutationKeepsDistinct(unsorted, paths);
  }

  /** What the parser remembers of a log: the commits flushed, and the one it is in. */
  ghost predicate Tracks(groups: seq<Group>, flushed: seq<Commit>, active: bool, subject: string, files: map<string, Delta>,
                         oversized: bool) {
    if !active then flushed == Retained(groups)
    else
      && groups != []
      && var g := groups[|groups| - 1];
         && flushed == Retained(groups[..|groups| - 1]) && subject == g.subject
         && (oversized <==> |FilesOf(g.entries)| > MAX_FILES_PER_COMMIT)
         && (!oversized ==> files == FilesOf(g.entries))
  }

  lemma FlushTracks(groups: seq<Group>, flushed: seq<Commit>, subject: string, files: map<string, Delta>, oversized: bool)
    requires Tracks(groups, flushed, true, subject, files, oversized)
    ensures Retained(groups) == if oversized || |files| == 0 then flushed else flushed + [Commit(subject, files)]
  {
    hide FilesOf;
    var g := groups[|groups| - 1];
    assert Counts(g) <==> !oversized && |files| != 0;
  }

  lemma GroupsSnoc(lines: seq<Line>, line: Line)
    ensures Groups(lines + [line]) == AddLine(Groups(lines), line)
  {
    assert (lines + [line])[..|lines|] == lines;
  }

  lemma CommitTracks(groups: seq<Group>, flushed: seq<Commit>, subject: string)
    requires flushed == Retained(groups)
    ensures Tracks(groups + [Group(subject, [])], flushed, true, subject, map[], false)
  {
    assert (groups + [Group(subject, [])])[..|groups|] == groups;
  }

  /** The parser's view of a commit after one more file line. Once a commit lists too many paths it stays oversized,
      whatever follows. */
  lemma FileTracks(groups: seq<Group>, flushed: seq<Commit>, subject: string, files: map<string, Delta>, oversized: bool,
                   path: string, delta: Delta)
    requires Tracks(groups, flushed, true, subject, files, oversized)
    ensures var next := AddLine(groups, FileLine(path, delta));
      if oversized then Tracks(next, flushed, true, subject, files, true)
      else if path !in files && |files| >= MAX_FILES_PER_COMMIT then Tracks(next, flushed, true, subject, map[], true)
      else Tracks(next, flushed, true, subject, files[path := delta], false)
  {
    var g := groups[|groups| - 1];
    FilesSnoc(g.entries, path, delta);
    hide FilesOf, Retained;
    assert (groups[..|groups| - 1] + [g.(entries := g.entries + [(path, delta)])])[..|groups| - 1] == groups[..|groups| - 1];
  }

  /** `changeMetricsParser`. */
  class Parser {
    const isDefect: string -> bool
    var commitsScanned: nat
    var files: map<string, FileMetrics>
    var storedRelations: nat
    var subject: string
    var current: map<string, Delta>
    var active: bool
    var oversized: bool
    /** Every line handled so far, and the commits its report covers. */
    ghost var lines: seq<Line>
    ghost var flushed: seq<Commit>

    ghost predicate Valid()
      reads this
    {
      && Tracks(Groups(lines), flushed, active, subject, current, oversized)
      && Summarizes(files, storedRelations, flushed, isDefect) && commitsScanned == |flushed|
    }

    /** Before the closing flush. */
    ghost predicate Open()
      reads this
    {
      active || Groups(lines) == []
    }

    constructor (isDefect: string -> bool)
      ensures Valid() && Open() && lines == [] && this.isDefect == isDefect
    {
      this.isDefect := isDefect;
      commitsScanned, files, storedRelations := 0, map[], 0;
      subject, current, active, oversized := "", map[], false, false;
      lines, flushed := [], [];
      new;
      assert Relations(map[]) == {};
    }

    /** `flush`: adds the commit at hand to the report, unless it lists no path or too many. */
    method Flush()
      requires Valid()
      modifies this`commitsScanned, this`files, this`storedRelations, this`active, this`flushed
      ensures Valid() && !active
    {
      hide Groups, Summarizes, Tracks, Retained;
      if !active {
        return;
      }
      FlushTracks(Groups(lines), flushed, subject, current, oversized);
      InactiveTracks(Groups(lines), Retained(Groups(lines)), subject, current, oversized);
      active := false;
      if oversized || |current| == 0 {
        return;
      }
      commitsScanned := commitsScanned + 1;
      AddCommit(flushed);
      flushed := flushed + [Commit(subject, current)];
    }

    /** The loops of `flush`. */
    method AddCommit(ghost before: seq<Commit>)
      requires Summarizes(files, storedRelations, before, isDefect)
      modifies this`files, this`storedRelations
      ensures Summarizes(files, storedRelations, before + [Commit(subject, current)], isDefect)
    {
      hide Summarizes, Partly, Counted, Before, Advanced, Grown;
      var paths := SortedPaths(current);
      var defect := isDefect(subject);
      ghost var c := Commit(subject, current);
      FlushStarts(files, storedRelations, before, c, isDefect);
      assert paths[..0] == [];
      hide Members, NoDuplicates;
      NoMembers();
      for i := 0 to |paths|
        invariant Partly(files, storedRelations, before, c, Members(paths[..i]), isDefect)
      {
        var path := paths[i];
        var metric := Before(files, path);
        PartlyCapped(files, storedRelations, before, c, Members(paths[..i]), isDefect);
        var partners, stored := CountPartners(metric.partners, path, paths, storedRelations);
        NextPath(files, storedRelations, before, c, isDefect, paths, i, partners, stored);
        metric := Counted(metric, subject, current[path], defect).(partners := partners);
        files, storedRelations := files[path := metric], stored;
      }
      assert paths[..|paths|] == paths;
      FlushEnds(files, storedRelations, before, c, isDefect);
    }

    /** `handleLine`, on a line as read. */
    method HandleLine(line: string)
      requires Valid() && Open()
      modifies this
      ensures lines == old(lines) + [ParseLine(line)]
      ensures Open()
      ensures Valid()
    {
      hide Groups, Summarizes, ParseLine, Tracks, Retained;
      GroupsSnoc(lines, ParseLine(line));
      match ParseLine(line) {
        case CommitLine(text) =>
          Flush();
          InactiveTracks(Groups(lines), flushed, subject, current, oversized);
          CommitTracks(Groups(lines), flushed, text);
          subject, current, active, oversized := text, map[], true, false;
        case FileLine(path, delta) =>
          if active {
            FileTracks(Groups(lines), flushed, subject, current, oversized, path, delta);
            if !oversized {
              if path !in current && |current| >= MAX_FILES_PER_COMMIT {
                current, oversized := map[], true;
              } else {
                current := current[path := delta];
              }
            }
          }
        case OtherLine =>
      }
      lines := lines + [ParseLine(line)];
    }
  }

  lemma InactiveTracks(groups: seq<Group>, flushed: seq<Commit>, subject: string, files: map<string, Delta>, oversized: bool)
    ensures Tracks(groups, flushed, false, subject, files, oversized) <==> flushed == Retained(groups)
  {
  }

  lemma PartlyCapped(files: map<string, FileMetrics>, stored: nat, commits: seq<Commit>, c: Commit, done: set<string>,
                     isDefect: string -> bool)
    requires Partly(files, stored, commits, c, done, isDefect)
    ensures stored <= MAX_RELATIONS
  {
  }

  lemma NoMembers()
    ensures Members<string>([]) == {}
  {
  }

  /** `NextFile`, for the next of the sorted paths. */
  lemma NextPath(files: map<string, FileMetrics>, stored: nat, commits: seq<Commit>, c: Commit, isDefect: string -> bool,
                 paths: seq<string>, i: nat, partners: map<string, nat>, stored': nat)
    requires i < |paths| && NoDuplicates(paths) && Members(paths) == c.files.Keys
    requires Partly(files, stored, commits, c, Members(paths[..i]), isDefect)
    requires Advanced(Before(files, paths[i]).partners, partners, paths[i], Members(paths))
    requires stored' == stored + Grown(Before(files, paths[i]).partners, partners) <= MAX_RELATIONS
    requires stored' < MAX_RELATIONS ==> Members(paths) - {paths[i]} <= partners.Keys
    ensures paths[i] in c.files
    ensures var m := Counted(Before(files, paths[i]), c.subject, c.files[paths[i]], isDefect(c.subject)).(partners := partners);
      Partly(files[paths[i] := m], stored', commits, c, Members(paths[..i + 1]), isDefect)
  {
    hide Partly, Advanced, Grown, Before, Counted;
    MembersNext(paths, i);
    assert paths[i] in Members(paths);
    NextFile(files, stored, commits, c, Members(paths[..i]), isDefect, paths[i], partners, stored');
  }

  function ParseLines(lines: seq<string>): seq<Line> {
    seq(|lines|, i requires 0 <= i < |lines| => ParseLine(lines[i]))
  }

  /** `parseChangeMetrics`: the report is the summary of exactly the commits that list from one to two hundred paths. */
  method ParseChangeMetrics(lines: seq<string>, isDefect: string -> bool)
    returns (commitsScanned: nat, files: map<string, FileMetrics>, stored: nat)
    ensures var commits := Retained(Groups(ParseLines(lines)));
      commitsScanned == |commits| && Summarizes(files, stored, commits, isDefect)
  {
    hide Groups, Summarizes, Retained, ParseLine;
    var parser := new Parser(isDefect);
    for i := 0 to |lines|
      invariant fresh(parser) && parser.Valid() && parser.Open() && parser.lines == ParseLines(lines[..i])
      invariant parser.isDefect == isDefect
    {
      assert ParseLines(lines[..i + 1]) == ParseLines(lines[..i]) + [ParseLine(lines[i])];
      parser.HandleLine(lines[i]);
    }
    assert lines[..|lines|] == lines;
    parser.Flush();
    return parser.commitsScanned, parser.files, parser.storedRelations;
  }

  /** In every report, no path has more defect commits than commits, or more commits than were scanned. */
  lemma ReportBounded(files: map<string, FileMetrics>, stored: nat, commits: seq<Commit>, isDefect: string -> bool, path: string)
    requires Summarizes(files, stored, commits, isDefect) && path in files
    ensures var m := files[path];
      && m.defectCommits <= m.commits <= |commits| && m.commits > 0 && m.churn == m.additions + m.deletions
      && |m.subjects| <= 12
      && forall q <- m.partners :: q != path && q in files && m.partners[q] <= m.commits
  {
    TotalsBounded(commits, path, isDefect);
    var m := files[path];
    assert Fits(m, commits, path, isDefect);
    forall q <- m.partners ensures q != path && q in files && m.partners[q] <= m.commits {
      PairsWhenCoChanged(commits, path, q);
      CoChangesBounded(commits, path, q, isDefect);
    }
  }
}
