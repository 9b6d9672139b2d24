/** What `change_metrics.go` promises, over the whole log at once: which commits count, and what they say about a path. */
module ChangeBatch {
  import opened ChangeLog

  const MAX_FILES_PER_COMMIT: nat := 200
  const MAX_RELATIONS: nat := 100_000
  const MAX_SUBJECTS: nat := 12

  /** One commit of the log with its file lines, as printed. */
  datatype Group = Group(subject: string, entries: seq<(string, Delta)>)

  /** `changeCommit`. */
  datatype Commit = Commit(subject: string, files: map<string, Delta>)

  /** One more line of a log. File lines before the first commit belong to none. */
  function AddLine(groups: seq<Group>, line: Line): seq<Group> {
    match line
    case CommitLine(subject) => groups + [Group(subject, [])]
    case FileLine(path, delta) =>
      if groups == [] then []
      else
        var g := groups[|groups| - 1];
        groups[..|groups| - 1] + [g.(entries := g.entries + [(path, delta)])]
    case OtherLine => groups
  }

  /** The commits of a log. */
  function Groups(lines: seq<Line>): seq<Group> {
    if lines == [] then [] else AddLine(Groups(lines[..|lines| - 1]), lines[|lines| - 1])
  }

  /** A path that a commit lists twice keeps its last counts. */
  function FilesOf(entries: seq<(string, Delta)>): map<string, Delta> {
    if entries == [] then map[]
    else
      var last := entries[|entries| - 1];
      FilesOf(entries[..|entries| - 1])[last.0 := last.1]
  }

  predicate Counts(g: Group) {
    0 < |FilesOf(g.entries)| <= MAX_FILES_PER_COMMIT
  }

  /** The commits that contribute. */
  function Retained(groups: seq<Group>): seq<Commit> {
    if groups == [] then []
    else
      var g := groups[|groups| - 1];
      Retained(groups[..|groups| - 1]) + (if Counts(g) then [Commit(g.subject, FilesOf(g.entries))] else [])
  }

  // ----- what commits say about a path -----

  datatype Totals = Totals(commits: nat, additions: nat, deletions: nat, defects: nat, subjects: seq<string>)

  const NOTHING := Totals(0, 0, 0, 0, [])

  function Adding(t: Totals, subject: string, delta: Delta, defect: bool): Totals {
    Totals(t.commits + 1, t.additions + delta.additions, t.deletions + delta.deletions,
           t.defects + (if defect then 1 else 0), t.subjects + (if subject == "" then [] else [subject]))
  }

  function TotalsOf(commits: seq<Commit>, path: string, isDefect: string -> bool): Totals {
    if commits == [] then NOTHING
    else
      var before, c := TotalsOf(commits[..|commits| - 1], path, isDefect), commits[|commits| - 1];
      if path in c.files then Adding(before, c.subject, c.files[path], isDefect(c.subject)) else before
  }

  predicate Together(c: Commit, p: string, q: string) {
    p != q && p in c.files && q in c.files
  }

  /** How many commits touch both paths. */
  function CoChanges(commits: seq<Commit>, p: string, q: string): nat {
    if commits == [] then 0
    else CoChanges(commits[..|commits| - 1], p, q) + (if Together(commits[|commits| - 1], p, q) then 1 else 0)
  }

  ghost function Touched(commits: seq<Commit>): set<string> {
    set c, p | c in commits && p in c.files :: p
  }

  /** The ordered pairs of paths that some commit touches together. */
  ghost function Pairs(commits: seq<Commit>): set<(string, string)> {
    set c, p, q | c in commits && p in c.files && q in c.files && p != q :: (p, q)
  }

  lemma TotalsSnoc(commits: seq<Commit>, c: Commit, path: string, isDefect: string -> bool)
    ensures TotalsOf(commits + [c], path, isDefect)
         == (var before := TotalsOf(commits, path, isDefect);
             if path in c.files then Adding(before, c.subject, c.files[path], isDefect(c.subject)) else before)
  {
    assert (commits + [c])[..|commits|] == commits;
  }

  lemma CoChangesSnoc(commits: seq<Commit>, c: Commit, p: string, q: string)
    ensures CoChanges(commits + [c], p, q) == CoChanges(commits, p, q) + (if Together(c, p, q) then 1 else 0)
  {
    assert (commits + [c])[..|commits|] == commits;
  }

  lemma {:induction false} PairsWhenCoChanged(commits: seq<Commit>, p: string, q: string)
    ensures (p, q) in Pairs(commits) <==> CoChanges(commits, p, q) > 0
  {
    if commits != [] {
      var init, last := commits[..|commits| - 1], commits[|commits| - 1];
      assert commits == init + [last];
      PairsWhenCoChanged(init, p, q);
      CoChangesSnoc(init, last, p, q);
      PairsSnoc(init, last);
    }
  }

  ghost function PairsOf(c: Commit): set<(string, string)> {
    set p, q | p in c.files && q in c.files && p != q :: (p, q)
  }

  lemma PairsSnoc(commits: seq<Commit>, c: Commit)
    ensures Pairs(commits + [c]) == Pairs(commits) + PairsOf(c)
  {
    forall p, q ensures (p, q) in Pairs(commits + [c]) <==> (p, q) in Pairs(commits) + PairsOf(c) {
      if (p, q) in Pairs(commits) + PairsOf(c) {
        if (p, q) in PairsOf(c) {
          assert c in commits + [c];
        } else {
          var d :| d in commits && p in d.files && q in d.files && p != q;
          assert d in commits + [c];
        }
      }
    }
  }

  lemma TouchedSnoc(commits: seq<Commit>, c: Commit)
    ensures Touched(commits + [c]) == Touched(commits) + c.files.Keys
  {
    forall p ensures p in Touched(commits + [c]) <==> p in Touched(commits) + c.files.Keys {
      if p in c.files {
        assert c in commits + [c];
      }
      if p in Touched(commits) {
        var d :| d in commits && p in d.files;
        assert d in commits + [c];
      }
    }
  }

  /** Defect commits are commits, and commits of a path are commits. */
  lemma {:induction false} TotalsBounded(commits: seq<Commit>, path: string, isDefect: string -> bool)
    ensures var t := TotalsOf(commits, path, isDefect); t.defects <= t.commits <= |commits|
    ensures TotalsOf(commits, path, isDefect).commits > 0 <==> path in Touched(commits)
  {
    if commits != [] {
      var init, last := commits[..|commits| - 1], commits[|commits| - 1];
      assert commits == init + [last];
      TotalsBounded(init, path, isDefect);
      TotalsSnoc(init, last, path, isDefect);
      TouchedSnoc(init, last);
    }
  }

  /** Co-change is symmetric and never more frequent than either path. */
  lemma {:induction false} CoChangesBounded(commits: seq<Commit>, p: string, q: string, isDefect: string -> bool)
    ensures CoChanges(commits, p, q) == CoChanges(commits, q, p) <= TotalsOf(commits, p, isDefect).commits
  {
    if commits != [] {
      CoChangesBounded(commits[..|commits| - 1], p, q, isDefect);
    }
  }

  // ----- the size of a commit -----

  ghost function PathsIn(entries: seq<(string, Delta)>): set<string> {
    set e | e in entries :: e.0
  }

  lemma {:induction false} FilesKeys(entries: seq<(string, Delta)>)
    ensures FilesOf(entries).Keys == PathsIn(entries)
  {
    if entries != [] {
      var init, last := entries[..|entries| - 1], entries[|entries| - 1];
      assert entries == init + [last];
      FilesKeys(init);
      assert last in entries;
      assert forall e :: e in entries <==> e in init || e == last;
    }
  }

  /** Whether a commit counts depends on the set of paths it lists alone: not on the order of its lines, on repeats,
      or on the counts. */
  lemma CountsByPaths(g: Group)
    ensures Counts(g) <==> 1 <= |PathsIn(g.entries)| <= 200
  {
    FilesKeys(g.entries);
    assert |FilesOf(g.entries)| == |FilesOf(g.entries).Keys|;
  }

  lemma FilesSnoc(entries: seq<(string, Delta)>, path: string, delta: Delta)
    ensures FilesOf(entries + [(path, delta)]) == FilesOf(entries)[path := delta]
    ensures |FilesOf(entries + [(path, delta)])| == |FilesOf(entries)| + (if path in FilesOf(entries) then 0 else 1)
  {
    assert (entries + [(path, delta)])[..|entries|] == entries;
    var files := FilesOf(entries);
    assert files[path := delta].Keys == files.Keys + {path};
    assert |files| == |files.Keys| && |files[path := delta]| == |files[path := delta].Keys|;
  }
}
