/** What a configuration file that states a weight ends up with, end to end: decoded, and then given the defaults. */
module ExplicitMeaning {
  import opened Text
  import opened Wrappers
  import opened ExplicitConfig
  import opened ExplicitWeights

  /** The weight that counts for field `i` once an object is decoded and the defaults are applied. */
  ghost function Read(json: bool, fields: seq<Field>, o: Object, defaults: seq<int>, i: nat): int
    requires i < |fields| == |defaults|
  {
    Effective(Decode(json, fields, Unset(fields), o), defaults)[i]
  }

  /** A weight that is stated under its key is that weight, zero included. */
  lemma StatedWeight(json: bool, fields: seq<Field>, o: Object, defaults: seq<int>, i: nat, n: int)
    requires i < |fields| == |defaults| && Unrepeated(o) && (fields[i].key, Int(n)) in o
    ensures Read(json, fields, o, defaults, i) == n
  {
    hide EqualFold;
    var key := fields[i].key;
    var k :| 0 <= k < |o| && o[k] == (key, Int(n));
    ValueOfMember(json, o, key, 0, k);
    FoldsItself(key);
    assert Matches(json, o[k].0, key) && States(json, o, key);
    hide ValueOf, LastUnder, Matches, Unrepeated;
  }

  /** A weight that is not stated at all, in whatever case, is the default. */
  lemma UnstatedWeight(json: bool, fields: seq<Field>, o: Object, defaults: seq<int>, i: nat)
    requires i < |fields| == |defaults| && forall m <- o :: !EqualFold(m.0, fields[i].key)
    ensures Read(json, fields, o, defaults, i) == defaults[i]
  {
    var key := fields[i].key;
    FoldsItself(key);
    ValueOfAbsent(json, o, key, 0);
    assert !States(json, o, key);
    hide EqualFold, ValueOf;
  }

  lemma {:induction false} LastNull(o: Object, key: string)
    requires forall m <- o :: m.0 == key ==> m.1 == Null
    ensures LastUnder(o, key) == Null
  {
    if o != [] {
      LastNull(o[..|o| - 1], key);
    }
  }

  lemma {:induction false} NullValue(json: bool, o: Object, key: string, before: int)
    requires forall m <- o :: Matches(json, m.0, key) ==> m.1 == Null
    ensures ValueOf(json, o, key, before) == before
  {
    if o != [] {
      assert o[|o| - 1] in o;
      NullValue(json, o[..|o| - 1], key, before);
    }
  }

  /** Nor does a null state a weight, or, in YAML, a key in another case. */
  lemma NullIsUnstated(json: bool, fields: seq<Field>, o: Object, defaults: seq<int>, i: nat)
    requires i < |fields| == |defaults|
    requires forall m <- o :: m.1 == Null || (if json then !EqualFold(m.0, fields[i].key) else m.0 != fields[i].key)
    ensures Read(json, fields, o, defaults, i) == defaults[i]
  {
    var key := fields[i].key;
    NullValue(json, o, key, 0);
    forall m <- o ensures !(Matches(json, m.0, key) && LastUnder(o, m.0).Int?) {
      if Matches(json, m.0, key) {
        forall x <- o | x.0 == m.0 ensures x.1 == Null {
        }
        LastNull(o, m.0);
      }
    }
    assert !States(json, o, key);
    hide EqualFold, ValueOf, LastUnder;
  }

  /** JSON finds a weight in whatever case its key is written. */
  lemma JsonIgnoresCase(fields: seq<Field>, o: Object, defaults: seq<int>, i: nat, key: string, n: int)
    requires i < |fields| == |defaults| && Unrepeated(o) && (key, Int(n)) in o && EqualFold(key, fields[i].key)
    ensures Read(true, fields, o, defaults, i) == n
  {
    var k :| 0 <= k < |o| && o[k] == (key, Int(n));
    FoldedMember(o, fields[i].key, 0, k);
    assert Matches(true, o[k].0, fields[i].key);
    ValueOfMember(true, o, key, 0, k);
    assert States(true, o, fields[i].key);
    hide EqualFold, ValueOf, LastUnder, Matches, Unrepeated;
  }

  lemma {:induction false} FoldedMember(o: Object, key: string, before: int, k: nat)
    requires Unrepeated(o) && k < |o| && EqualFold(o[k].0, key) && o[k].1.Int?
    ensures ValueOf(true, o, key, before) == o[k].1.n
  {
    var n := |o| - 1;
    assert o == o[..n] + [o[n]];
    if k < n {
      FoldedMember(o[..n], key, before, k);
    }
  }

  // ----- the two structs -----

  /** The defaults of risk scoring, by key. */
  const RISK_TABLE: seq<(string, int)> := [
    ("changed_file_weight", 5), ("fail_finding_weight", 30), ("warn_finding_weight", 15), ("security_weight", 10),
    ("supply_chain_weight", 10), ("coverage_gap_weight", 15), ("ai_provenance_weight", 15), ("ai_signal_weight", 10),
    ("slop_score_divisor", 10)]

  /** A risk-scoring weight that the file states counts as stated; any other has the default of its key. */
  lemma RiskWeightRead(json: bool, o: Object, i: nat, n: int)
    requires i < 9 && |RISK_DEFAULTS| == |RISK_FIELDS| == |RISK_TABLE| == 9
    ensures Unrepeated(o) && (RISK_TABLE[i].0, Int(n)) in o ==> Read(json, RISK_FIELDS, o, RISK_DEFAULTS, i) == n
    ensures (forall m <- o :: !EqualFold(m.0, RISK_TABLE[i].0)) ==>
      Read(json, RISK_FIELDS, o, RISK_DEFAULTS, i) == RISK_TABLE[i].1
  {
    RiskTableFits(i);
    hide RISK_FIELDS, RISK_DEFAULTS, RISK_TABLE, EqualFold, Unrepeated, Read;
    if Unrepeated(o) && (RISK_FIELDS[i].key, Int(n)) in o {
      StatedWeight(json, RISK_FIELDS, o, RISK_DEFAULTS, i, n);
    }
    if forall m <- o :: !EqualFold(m.0, RISK_FIELDS[i].key) {
      UnstatedWeight(json, RISK_FIELDS, o, RISK_DEFAULTS, i);
    }
  }

  lemma RiskTableFits(i: nat)
    requires i < 9
    ensures |RISK_DEFAULTS| == |RISK_FIELDS| == |RISK_TABLE| == 9
    ensures RISK_FIELDS[i].key == RISK_TABLE[i].0 && RISK_DEFAULTS[i] == RISK_TABLE[i].1
  {
  }

  const PRODUCTION_KEYS: seq<string> := ["reliability_weight", "data_weight", "fail_weight", "warn_weight"]

  /** So it is for production risk, whatever the profile's defaults. */
  lemma ProductionWeightRead(json: bool, o: Object, defaults: seq<int>, i: nat, n: int)
    requires i < 4 == |defaults| && |PRODUCTION_FIELDS| == |PRODUCTION_KEYS| == 4
    ensures Unrepeated(o) && (PRODUCTION_KEYS[i], Int(n)) in o ==> Read(json, PRODUCTION_FIELDS, o, defaults, i) == n
    ensures (forall m <- o :: !EqualFold(m.0, PRODUCTION_KEYS[i])) ==>
      Read(json, PRODUCTION_FIELDS, o, defaults, i) == defaults[i]
  {
    assert PRODUCTION_FIELDS[i].key == PRODUCTION_KEYS[i];
    hide PRODUCTION_FIELDS, PRODUCTION_KEYS, EqualFold, Unrepeated, Read;
    if Unrepeated(o) && (PRODUCTION_FIELDS[i].key, Int(n)) in o {
      StatedWeight(json, PRODUCTION_FIELDS, o, defaults, i, n);
    }
    if forall m <- o :: !EqualFold(m.0, PRODUCTION_FIELDS[i].key) {
      UnstatedWeight(json, PRODUCTION_FIELDS, o, defaults, i);
    }
  }

  // ----- marking a weight explicit -----

  /** A name reaches the first weight whose key or field name it is, whatever its case and the blanks around it. */
  lemma IndexWhen(fields: seq<Field>, key: string, i: nat)
    ensures ExplicitIndex(fields, key) == Some(i) <==>
      && i < |fields| && Lower(TrimSpace(key)) in {Lower(fields[i].key), Lower(fields[i].name)}
      && forall k :: 0 <= k < i ==> Lower(TrimSpace(key)) !in {Lower(fields[k].key), Lower(fields[k].name)}
  {
    hide TrimSpace, Lower;
    FirstNamed(fields, TrimSpace(key), 0);
  }

  lemma {:induction false} FirstNamed(fields: seq<Field>, key: string, from: nat)
    requires from <= |fields|
    ensures var r := IndexFrom(fields, key, from);
      r.Some? ==> forall k :: from <= k < r.value ==> !Names(fields[k], key)
    decreases |fields| - from
  {
    hide Names;
    if from < |fields| && !Names(fields[from], key) {
      FirstNamed(fields, key, from + 1);
    }
  }

  /** `SetExplicit` and `ClearExplicit` reach a weight under its key. */
  lemma KeyNamesBit(fields: seq<Field>, keys: seq<string>, bits: set<nat>, i: nat)
    requires DistinctKeys(fields) && NamesBits(fields, keys, bits) && i < |fields| && fields[i].key in keys
    ensures i in bits
  {
    KeyIndex(fields, i);
    hide ExplicitIndex, DistinctKeys;
  }

  // ----- the text that is appended -----

  predicate Increasing(s: seq<nat>) {
    forall j, k :: 0 <= j < k < |s| ==> s[j] < s[k]
  }

  lemma FirstIncreasing(i: nat, rest: seq<nat>)
    requires Increasing(rest) && forall k <- rest :: i < k
    ensures Increasing([i] + rest)
  {
    var all := [i] + rest;
    assert forall k :: 1 <= k < |all| ==> all[k] == rest[k - 1] && all[k] in rest;
  }

  lemma ZerosFrom(w: Weights, i: nat)
    requires i <= |w.values|
    ensures forall k <- ChosenZeros(w, i) :: i <= k
  {
    ChosenZeroIndexes(w, i);
  }

  /** The chosen zeros are appended in the order of their fields. */
  lemma {:induction false} ChosenZerosInOrder(w: Weights, i: nat)
    requires i <= |w.values|
    ensures Increasing(ChosenZeros(w, i))
    decreases |w.values| - i
  {
    if i < |w.values| {
      ChosenZerosInOrder(w, i + 1);
      ZerosFrom(w, i + 1);
      var zeros, rest := ChosenZeros(w, i), ChosenZeros(w, i + 1);
      assert zeros == rest || zeros == [i] + rest;
      hide ChosenZeros, Increasing;
      FirstIncreasing(i, rest);
    }
  }

  lemma ZeroMember(key: string)
    ensures PrintMember((key, 0)) == "\"" + key + "\":0"
  {
    assert Decimal(0) == "0";
  }

  lemma SplicedIn(p: string, m: string)
    ensures var text := "{" + p + "}";
      text[..|text| - 1] + "," + m + "}" == "{" + (p + "," + m) + "}"
  {
    var text := "{" + p + "}";
    assert text[..|text| - 1] == "{" + p;
  }

  /** A chosen zero is printed as its quoted key, a colon and a nought, after a comma unless it is the first member. */
  lemma ZeroPrinted(members: seq<(string, int)>, key: string)
    ensures var text, zero := PrintObject(members), "\"" + key + "\":0";
      PrintObject(members + [(key, 0)]) == if members == [] then "{" + zero + "}" else text[..|text| - 1] + "," + zero + "}"
  {
    PrintMembersSnoc(members, (key, 0));
    ZeroMember(key);
    hide PrintMembers, PrintMember;
    SplicedIn(PrintMembers(members), "\"" + key + "\":0");
  }
}
