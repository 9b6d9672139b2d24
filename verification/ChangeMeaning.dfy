/** The totals of a change report, counted over the commits that contribute. */
module ChangeMeaning {
  import opened ChangeLog
  import opened ChangeBatch
  import opened ChangeMetrics

  // ----- the commits of a log -----

  ghost predicate NoCommit(lines: seq<Line>) {
    forall k :: 0 <= k < |lines| ==> !lines[k].CommitLine?
  }

  /** The file lines among some lines, in order. */
  function FileLines(lines: seq<Line>): seq<(string, Delta)> {
    if lines == [] then []
    else
      var last := lines[|lines| - 1];
      FileLines(lines[..|lines| - 1]) + (if last.FileLine? then [(last.path, last.delta)] else [])
  }

  /** A commit line opens a commit, which has the file lines up to the next; file lines before the first belong to none. */
  lemma {:induction false} GroupsRead(before: seq<Line>, subject: string, lines: seq<Line>)
    requires NoCommit(lines)
    ensures Groups(before + [CommitLine(subject)] + lines) == Groups(before) + [Group(subject, FileLines(lines))]
    ensures Groups(lines) == []
    decreases |lines|
  {
    if lines == [] {
      assert before + [CommitLine(subject)] + lines == before + [CommitLine(subject)];
      assert (before + [CommitLine(subject)])[..|before|] == before;
    } else {
      var init, last := lines[..|lines| - 1], lines[|lines| - 1];
      GroupsRead(before, subject, init);
      var all := before + [CommitLine(subject)] + lines;
      assert all[..|all| - 1] == before + [CommitLine(subject)] + init && all[|all| - 1] == last;
      LineAdded(Groups(before), Group(subject, FileLines(init)), last);
    }
  }

  lemma LineAdded(groups: seq<Group>, g: Group, line: Line)
    requires !line.CommitLine?
    ensures AddLine(groups + [g], line)
         == groups + [g.(entries := g.entries + if line.FileLine? then [(line.path, line.delta)] else [])]
  {
    assert (groups + [g])[..|groups|] == groups;
    assert g.(entries := g.entries + []) == g;
  }

  /** Of a path that a commit lists more than once the last counts hold. */
  lemma {:induction false} LastCountsHold(before: seq<(string, Delta)>, path: string, delta: Delta, after: seq<(string, Delta)>)
    requires forall k :: 0 <= k < |after| ==> after[k].0 != path
    ensures var files := FilesOf(before + [(path, delta)] + after);
      path in files && files[path] == delta
    decreases |after|
  {
    if after == [] {
      assert before + [(path, delta)] + after == before + [(path, delta)];
    } else {
      LastCountsHold(before, path, delta, after[..|after| - 1]);
      var all := before + [(path, delta)] + after;
      assert all[..|all| - 1] == before + [(path, delta)] + after[..|after| - 1];
    }
  }

  /** A commit contributes, in its place, if it lists from one to two hundred paths, and else not at all. */
  lemma {:induction false} RetainedRead(before: seq<Group>, g: Group, after: seq<Group>)
    ensures Retained(before + [g] + after) ==
      Retained(before)
      + (if 1 <= |PathsIn(g.entries)| <= 200 then [Commit(g.subject, FilesOf(g.entries))] else [])
      + Retained(after)
    decreases |after|
  {
    CountsByPaths(g);
    hide Counts, PathsIn, FilesOf;
    if after == [] {
      assert before + [g] + after == before + [g] && (before + [g])[..|before|] == before;
    } else {
      var n := |after| - 1;
      RetainedRead(before, g, after[..n]);
      var all := before + [g] + after;
      assert all[..|all| - 1] == before + [g] + after[..n] && all[|all| - 1] == after[n];
    }
  }

  // ----- what they add up to -----

  function Sum(numbers: seq<nat>): nat {
    if numbers == [] then 0 else Sum(numbers[..|numbers| - 1]) + numbers[|numbers| - 1]
  }

  /** The commits that touch a path, and those among them that mend a defect. */
  ghost function Touching(commits: seq<Commit>, path: string): set<nat> {
    set k: nat | k < |commits| && path in commits[k].files
  }

  ghost function Mending(commits: seq<Commit>, path: string, isDefect: string -> bool): set<nat> {
    set k: nat | k < |commits| && path in commits[k].files && isDefect(commits[k].subject)
  }

  function Added(commits: seq<Commit>, path: string): seq<nat> {
    seq(|commits|, k requires 0 <= k < |commits| => if path in commits[k].files then commits[k].files[path].additions else 0)
  }

  function Deleted(commits: seq<Commit>, path: string): seq<nat> {
    seq(|commits|, k requires 0 <= k < |commits| => if path in commits[k].files then commits[k].files[path].deletions else 0)
  }

  lemma SumSnoc(numbers: seq<nat>, n: nat)
    ensures Sum(numbers + [n]) == Sum(numbers) + n
  {
    assert (numbers + [n])[..|numbers|] == numbers;
  }

  lemma TouchingSnoc(commits: seq<Commit>, c: Commit, path: string)
    ensures Touching(commits + [c], path) == Touching(commits, path) + if path in c.files then {|commits|} else {}
  {
  }

  lemma MendingSnoc(commits: seq<Commit>, c: Commit, path: string, isDefect: string -> bool)
    ensures Mending(commits + [c], path, isDefect)
         == Mending(commits, path, isDefect) + if path in c.files && isDefect(c.subject) then {|commits|} else {}
  {
  }

  lemma SumsSnoc(commits: seq<Commit>, c: Commit, path: string)
    ensures Sum(Added(commits + [c], path)) == Sum(Added(commits, path)) + if path in c.files then c.files[path].additions else 0
    ensures Sum(Deleted(commits + [c], path)) == Sum(Deleted(commits, path)) + if path in c.files then c.files[path].deletions else 0
  {
    var a, d := if path in c.files then c.files[path].additions else 0, if path in c.files then c.files[path].deletions else 0;
    assert Added(commits + [c], path) == Added(commits, path) + [a];
    assert Deleted(commits + [c], path) == Deleted(commits, path) + [d];
    SumSnoc(Added(commits, path), a);
    SumSnoc(Deleted(commits, path), d);
  }

  /** The totals of a path count the commits that touch it and the defects among them, and add up their lines. */
  lemma {:induction false} TotalsRead(commits: seq<Commit>, path: string, isDefect: string -> bool)
    ensures var t := TotalsOf(commits, path, isDefect);
      && t.commits == |Touching(commits, path)| && t.defects == |Mending(commits, path, isDefect)|
      && t.additions == Sum(Added(commits, path)) && t.deletions == Sum(Deleted(commits, path))
  {
    if commits == [] {
      assert Touching(commits, path) == {} && Mending(commits, path, isDefect) == {};
    } else {
      var init, last := commits[..|commits| - 1], commits[|commits| - 1];
      assert commits == init + [last];
      TotalsRead(init, path, isDefect);
      TotalsSnoc(init, last, path, isDefect);
      TouchingSnoc(init, last, path);
      MendingSnoc(init, last, path, isDefect);
      SumsSnoc(init, last, path);
      assert |init| !in Touching(init, path) && |init| !in Mending(init, path, isDefect);
      hide TotalsOf, Touching, Mending, Sum, Added, Deleted;
    }
  }

  /** The subjects of a path are those of the commits that touch it, one after the other, without the empty ones. */
  lemma {:induction false} SubjectsRead(a: seq<Commit>, c: Commit, b: seq<Commit>, path: string, isDefect: string -> bool)
    ensures TotalsOf(a + [c] + b, path, isDefect).subjects ==
      TotalsOf(a, path, isDefect).subjects
      + (if path in c.files && c.subject != "" then [c.subject] else [])
      + TotalsOf(b, path, isDefect).subjects
    decreases |b|
  {
    if b == [] {
      assert a + [c] + b == a + [c];
      TotalsSnoc(a, c, path, isDefect);
    } else {
      var init, last := b[..|b| - 1], b[|b| - 1];
      SubjectsRead(a, c, init, path, isDefect);
      assert b == init + [last] && a + [c] + b == (a + [c] + init) + [last];
      TotalsSnoc(a + [c] + init, last, path, isDefect);
      TotalsSnoc(init, last, path, isDefect);
    }
  }

  /** A report lists the first twelve of them. */
  lemma SubjectsListed(m: FileMetrics, commits: seq<Commit>, path: string, isDefect: string -> bool)
    requires Fits(m, commits, path, isDefect)
    ensures var all := TotalsOf(commits, path, isDefect).subjects;
      m.subjects <= all && |m.subjects| <= 12 && (|m.subjects| < 12 ==> m.subjects == all)
  {
  }

  ghost function TouchingBoth(commits: seq<Commit>, p: string, q: string): set<nat> {
    set k: nat | k < |commits| && p in commits[k].files && q in commits[k].files
  }

  lemma TouchingBothSnoc(commits: seq<Commit>, c: Commit, p: string, q: string)
    ensures TouchingBoth(commits + [c], p, q)
         == TouchingBoth(commits, p, q) + if p in c.files && q in c.files then {|commits|} else {}
  {
  }

  /** Two paths co-change as often as some commit touches both. */
  lemma {:induction false} CoChangesRead(commits: seq<Commit>, p: string, q: string)
    requires p != q
    ensures CoChanges(commits, p, q) == |TouchingBoth(commits, p, q)|
  {
    if commits == [] {
      assert TouchingBoth(commits, p, q) == {};
    } else {
      var init, last := commits[..|commits| - 1], commits[|commits| - 1];
      assert commits == init + [last];
      CoChangesRead(init, p, q);
      CoChangesSnoc(init, last, p, q);
      TouchingBothSnoc(init, last, p, q);
      assert |init| !in TouchingBoth(init, p, q);
      hide TouchingBoth, CoChanges;
    }
  }
}
