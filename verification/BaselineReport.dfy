/** `Audit` and the entry selection of `WritePruned`, on top of the matching. */
module BaselineReport {
  import opened BaselineTiers
  import opened BaselineAudit
  import opened Ordering

  datatype Status = Invalid | Stale | Active(tier: Tier)

  datatype EntryAudit = EntryAudit(entry: Entry, status: Status, matches: seq<Finding>)

  /** `Counts`; `Removed` and `Final` repeat `stale` and `active`. */
  datatype Counts = Counts(before: nat, activeExact: nat, activeContext: nat, activeContent: nat, stale: nat, invalid: nat)
  {
    function Active(): nat {
      activeExact + activeContext + activeContent
    }
  }

  function StatusAt(entries: seq<Entry>, matches: map<nat, Match>, i: nat): Status
    requires i < |entries|
  {
    if !Valid(entries[i]) then Invalid
    else if i in matches then Active(matches[i].tier)
    else Stale
  }

  function Statuses(entries: seq<Entry>, matches: map<nat, Match>): seq<Status> {
    seq(|entries|, i requires 0 <= i < |entries| => StatusAt(entries, matches, i))
  }

  function Tally(statuses: seq<Status>, s: Status): nat {
    if statuses == [] then 0
    else Tally(statuses[..|statuses| - 1], s) + (if statuses[|statuses| - 1] == s then 1 else 0)
  }

  function CountsOf(statuses: seq<Status>): Counts {
    Counts(|statuses|, Tally(statuses, Active(Exact)), Tally(statuses, Active(Context)), Tally(statuses, Active(Content)),
           Tally(statuses, Stale), Tally(statuses, Invalid))
  }

  /** What one row adds to the counts. */
  function Counted(c: Counts, s: Status): Counts {
    var c' := c.(before := c.before + 1);
    match s
    case Invalid => c'.(invalid := c.invalid + 1)
    case Stale => c'.(stale := c.stale + 1)
    case Active(Exact) => c'.(activeExact := c.activeExact + 1)
    case Active(Context) => c'.(activeContext := c.activeContext + 1)
    case Active(Content) => c'.(activeContent := c.activeContent + 1)
  }

  lemma CountsGrow(statuses: seq<Status>, n: nat)
    requires n < |statuses|
    ensures CountsOf(statuses[..n + 1]) == Counted(CountsOf(statuses[..n]), statuses[n])
  {
    assert statuses[..n + 1][..n] == statuses[..n];
  }

  function RowKey(row: EntryAudit): string {
    EntryKey(row.entry)
  }

  function RowAt(entries: seq<Entry>, findings: seq<Finding>, matches: map<nat, Match>, n: nat): EntryAudit
    requires n < |entries| && forall i <- matches :: matches[i].finding < |findings|
  {
    var status := StatusAt(entries, matches, n);
    EntryAudit(entries[n], status, if status.Active? then [findings[matches[n].finding]] else [])
  }

  /** The body of the loop of `Audit` over the file's entries. */
  method AuditEntry(entries: seq<Entry>, findings: seq<Finding>, matches: map<nat, Match>, n: nat, before: Counts)
    returns (counts: Counts, row: EntryAudit)
    requires n < |entries| && forall i <- matches :: matches[i].finding < |findings|
    ensures row == RowAt(entries, findings, matches, n)
    ensures counts == Counted(before, row.status)
  {
    counts := before.(before := before.before + 1);
    row := EntryAudit(entries[n], Stale, []);
    if !Valid(entries[n]) {
      row := row.(status := Invalid);
      counts := counts.(invalid := counts.invalid + 1);
    } else if n in matches {
      row := row.(status := Active(matches[n].tier), matches := [findings[matches[n].finding]]);
      match matches[n].tier
      case Exact => counts := counts.(activeExact := counts.activeExact + 1);
      case Context => counts := counts.(activeContext := counts.activeContext + 1);
      case Content => counts := counts.(activeContent := counts.activeContent + 1);
    } else {
      counts := counts.(stale := counts.stale + 1);
    }
  }

  /** The rows of an audit, in file order. */
  function Rows(entries: seq<Entry>, findings: seq<Finding>, matches: map<nat, Match>): seq<EntryAudit>
    requires forall i <- matches :: matches[i].finding < |findings|
  {
    seq(|entries|, n requires 0 <= n < |entries| => RowAt(entries, findings, matches, n))
  }

  /** The loop of `Audit` over the file's entries. */
  method AuditRows(entries: seq<Entry>, findings: seq<Finding>, matches: map<nat, Match>)
    returns (counts: Counts, rows: seq<EntryAudit>)
    requires forall i <- matches :: matches[i].finding < |findings|
    ensures counts == CountsOf(Statuses(entries, matches))
    ensures rows == Rows(entries, findings, matches)
  {
    ghost var statuses := Statuses(entries, matches);
    rows := [];
    counts := Counts(0, 0, 0, 0, 0, 0);
    for n := 0 to |entries|
      invariant |rows| == n && forall k :: 0 <= k < n ==> rows[k] == RowAt(entries, findings, matches, k)
      invariant counts == CountsOf(statuses[..n])
    {
      CountsGrow(statuses, n);
      var row;
      counts, row := AuditEntry(entries, findings, matches, n, counts);
      rows := rows + [row];
    }
    assert statuses[..|entries|] == statuses;
  }

  /** `Audit`, without its grouping and diagnostics sections. */
  method Audit(entries: seq<Entry>, findings: seq<Finding>)
    returns (counts: Counts, audits: seq<EntryAudit>, ghost matches: map<nat, Match>)
    ensures Reconciled(entries, findings, matches)
    ensures counts == CountsOf(Statuses(entries, matches))
    ensures multiset(audits) == multiset(Rows(entries, findings, matches))
    ensures SortedBy(audits, ByKey(RowKey))
  {
    var found := MatchBaselineEntries(entries, findings);
    matches := found;
    var rows;
    counts, rows := AuditRows(entries, findings, found);
    ByKeyIsPreorder(RowKey);
    audits := Sort(rows, ByKey(RowKey));
  }

  /** `entriesWithStatus`, as `ActiveEntries` and the invalid-entry loop of `WritePruned` use it. */
  method EntriesWithStatus(audits: seq<EntryAudit>, wanted: Status -> bool) returns (entries: seq<Entry>)
    ensures entries == Selected(audits, wanted)
  {
    entries := [];
    for n := 0 to |audits|
      invariant entries == Selected(audits[..n], wanted)
    {
      assert audits[..n + 1][..n] == audits[..n];
      if wanted(audits[n].status) {
        entries := entries + [audits[n].entry];
      }
    }
    assert audits[..|audits|] == audits;
  }

  function Selected(audits: seq<EntryAudit>, wanted: Status -> bool): seq<Entry> {
    if audits == [] then []
    else
      var last := audits[|audits| - 1];
      Selected(audits[..|audits| - 1], wanted) + (if wanted(last.status) then [last.entry] else [])
  }

  datatype PruneResult = Pruned(entries: seq<Entry>) | InvalidEntries

  /** The statuses that survive pruning. */
  function Kept(allowInvalid: bool): Status -> bool {
    (s: Status) => s.Active? || (s.Invalid? && allowInvalid)
  }

  /** The entries `WritePruned` writes, or its refusal. */
  method PrunedEntries(counts: Counts, audits: seq<EntryAudit>, allowInvalid: bool) returns (result: PruneResult)
    ensures result.InvalidEntries? <==> counts.invalid > 0 && !allowInvalid
    ensures result.Pruned? ==> SortedBy(result.entries, ByKey(EntryKey))
    ensures result.Pruned? ==> multiset(result.entries) == multiset(Selected(audits, Kept(allowInvalid)))
  {
    if counts.invalid > 0 && !allowInvalid {
      return InvalidEntries;
    }
    var entries := EntriesWithStatus(audits, (s: Status) => s.Active?);
    if allowInvalid {
      var invalid := EntriesWithStatus(audits, (s: Status) => s.Invalid?);
      entries := entries + invalid;
    }
    SelectedSplits(audits, allowInvalid);
    ByKeyIsPreorder(EntryKey);
    entries := Sort(entries, ByKey(EntryKey));
    result := Pruned(entries);
  }

  lemma {:induction false} SelectedSplits(audits: seq<EntryAudit>, allowInvalid: bool)
    ensures multiset(Selected(audits, Kept(allowInvalid)))
         == multiset(Selected(audits, (s: Status) => s.Active?))
          + if allowInvalid then multiset(Selected(audits, (s: Status) => s.Invalid?)) else multiset{}
  {
    if audits != [] {
      SelectedSplits(audits[..|audits| - 1], allowInvalid);
    }
  }
}
