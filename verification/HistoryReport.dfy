/** What the history scan reports, on the fields of its findings: which secrets it takes for the same. */
module HistoryReport {
  import opened Text
  import opened GitLog
  import opened HistoryTrace
  import opened HistoryExact
  import opened HistoryLog

  /** The fields that tell one reported secret from another. */
  predicate SameSecret(f: Finding, g: Finding) {
    f.secret.ruleID == g.secret.ruleID && f.path == g.path && f.secret.message == g.secret.message
  }

  /** A finding carries the file, line and commit of the added line in which the scanner found it. */
  lemma {:induction false} FindingsCarry(scanner: Scanner, events: seq<Event>, f: Finding)
    ensures f in AllFindings(scanner, events) <==>
      exists e :: e in events && !scanner.skips(e.file) && f.secret in scanner.scan(e.content)
               && f.path == e.file && f.line == e.line && f.commit == e.commit
  {
    if events != [] {
      var init, last := events[..|events| - 1], events[|events| - 1];
      assert events == init + [last];
      FindingsCarry(scanner, init, f);
      CarriedAt(scanner, last, f);
      hide EventFindings;
      assert f in AllFindings(scanner, events) <==> f in AllFindings(scanner, init) || f in EventFindings(scanner, last);
      assert forall e :: e in events <==> e in init || e == last;
    }
  }

  lemma CarriedAt(scanner: Scanner, e: Event, f: Finding)
    ensures f in EventFindings(scanner, e) <==>
      !scanner.skips(e.file) && f.secret in scanner.scan(e.content) && f.path == e.file && f.line == e.line && f.commit == e.commit
  {
    var matches := scanner.scan(e.content);
    if !scanner.skips(e.file) && f.secret in matches && f.path == e.file && f.line == e.line && f.commit == e.commit {
      var i :| 0 <= i < |matches| && matches[i] == f.secret;
      assert EventFindings(scanner, e)[i] == f;
    }
  }

  /** No bar in the rule id or the file name. */
  predicate BarFree(f: Finding) {
    Free(f.secret.ruleID, '|') && Free(f.path, '|')
  }

  /** Such keys agree exactly when rule, file and message do. */
  lemma KeysAgreeIff(f: Finding, g: Finding)
    requires BarFree(f) && BarFree(g)
    ensures KeyOfFinding(f) == KeyOfFinding(g) <==> SameSecret(f, g)
  {
    var a, b := f.path + ['|'] + f.secret.message, g.path + ['|'] + g.secret.message;
    assert KeyOfFinding(f) == f.secret.ruleID + ['|'] + a && KeyOfFinding(g) == g.secret.ruleID + ['|'] + b by {
      KeyParts(f);
      KeyParts(g);
    }
    hide KeyOfFinding;
    if KeyOfFinding(f) == KeyOfFinding(g) {
      HeadsAgree(f.secret.ruleID, a, g.secret.ruleID, b, '|');
      HeadsAgree(f.path, f.secret.message, g.path, g.secret.message, '|');
    }
  }

  lemma KeyParts(f: Finding)
    ensures KeyOfFinding(f) == f.secret.ruleID + ['|'] + (f.path + ['|'] + f.secret.message)
  {
  }

  /** No finding before the `k`th is of the same secret. */
  ghost predicate FirstAt(findings: seq<Finding>, k: nat) {
    k < |findings| && forall i :: 0 <= i < k ==> !SameSecret(findings[i], findings[k])
  }

  /** The report holds, of every secret that was found in a file, its first finding and no other. */
  lemma ReportedByFields(findings: seq<Finding>)
    requires forall f <- findings :: BarFree(f)
    ensures var report := FirstOfEachKey(findings);
      && (forall i, j :: 0 <= i < j < |report| ==> !SameSecret(report[i], report[j]))
      && (forall g <- report :: exists k: nat :: FirstAt(findings, k) && findings[k] == g)
      && (forall f <- findings :: exists g :: g in report && SameSecret(f, g))
  {
    ReportedOnce(findings);
    var report := FirstOfEachKey(findings);
    hide FirstOfEachKey, KeyOfFinding, SameSecret;
    forall g <- report ensures g in findings && exists k: nat :: FirstAt(findings, k) && findings[k] == g {
      FirstOfReport(findings, g);
    }
    forall i, j | 0 <= i < j < |report| ensures !SameSecret(report[i], report[j]) {
      KeysAgreeIff(report[i], report[j]);
    }
    forall f <- findings ensures exists g :: g in report && SameSecret(f, g) {
      assert KeyOfFinding(f) in Keys(report);
      var g :| g in report && KeyOfFinding(g) == KeyOfFinding(f);
      KeysAgreeIff(f, g);
      assert g in report && SameSecret(f, g);
    }
  }

  lemma FirstOfReport(findings: seq<Finding>, g: Finding)
    requires (forall f <- findings :: BarFree(f)) && IsFirst(findings, g)
    ensures g in findings && exists k: nat :: FirstAt(findings, k) && findings[k] == g
  {
    hide KeyOfFinding, SameSecret;
    var k :| 0 <= k < |findings| && findings[k] == g && KeyOfFinding(g) !in Keys(findings[..k]);
    forall i | 0 <= i < k ensures !SameSecret(findings[i], findings[k]) {
      assert findings[..k][i] in findings[..k];
      KeysAgreeIff(findings[i], findings[k]);
    }
    assert FirstAt(findings, k);
  }

  /** A bar in a rule id or a file name can make two different secrets one. */
  lemma BarsCollide(level: string, confidence: string, message: string, line: nat, commit: string)
    ensures var f := Finding(Match("r", level, confidence, message), "a|b", line, commit);
      var g := Finding(Match("r|a", level, confidence, message), "b", line, commit);
      !SameSecret(f, g) && FirstOfEachKey([f, g]) == [f]
  {
    var f := Finding(Match("r", level, confidence, message), "a|b", line, commit);
    var g := Finding(Match("r|a", level, confidence, message), "b", line, commit);
    assert "r" + "|" + "a|b" == "r|a" + "|" + "b";
    assert KeyOfFinding(f) == KeyOfFinding(g);
    hide KeyOfFinding;
    FirstSnoc([], f);
    FirstSnoc([f], g);
    assert [] + [f] == [f] && [f] + [g] == [f, g] && [f] + [] == [f];
    assert FirstOfEachKey([]) == [];
  }
}
