/** `config_explicit.go`, `config_explicit_weights.go` and the defaults of the two weight structs: weights of which a
    zero may be a choice. */
module ExplicitConfig {
  import opened Text
  import opened Sequences
  import opened Wrappers

  /** `explicitIntField`, without its pointer: field `i` of a table is weight `i` of the struct. */
  datatype Field = Field(key: string, name: string)

  const RISK_FIELDS: seq<Field> := [
    Field("changed_file_weight", "ChangedFileWeight"),
    Field("fail_finding_weight", "FailFindingWeight"),
    Field("warn_finding_weight", "WarnFindingWeight"),
    Field("security_weight", "SecurityWeight"),
    Field("supply_chain_weight", "SupplyChainWeight"),
    Field("coverage_gap_weight", "CoverageGapWeight"),
    Field("ai_provenance_weight", "AIProvenanceWeight"),
    Field("ai_signal_weight", "AISignalWeight"),
    Field("slop_score_divisor", "SlopScoreDivisor")]

  const RISK_DEFAULTS: seq<int> := [5, 30, 15, 10, 10, 15, 15, 10, 10]

  const PRODUCTION_FIELDS: seq<Field> := [
    Field("reliability_weight", "ReliabilityWeight"),
    Field("data_weight", "DataWeight"),
    Field("fail_weight", "FailWeight"),
    Field("warn_weight", "WarnWeight")]

  predicate EqualFold(a: string, b: string) {
    Lower(a) == Lower(b)
  }

  predicate Names(f: Field, key: string) {
    EqualFold(f.key, key) || EqualFold(f.name, key)
  }

  /** `explicitIndex` after trimming: the first field that goes by that name. */
  function IndexFrom(fields: seq<Field>, key: string, i: nat): (r: Option<nat>)
    requires i <= |fields|
    ensures r.Some? ==> i <= r.value < |fields| && Names(fields[r.value], key)
    ensures r.None? ==> forall k :: i <= k < |fields| ==> !Names(fields[k], key)
    decreases |fields| - i
  {
    if i == |fields| then None else if Names(fields[i], key) then Some(i) else IndexFrom(fields, key, i + 1)
  }

  function ExplicitIndex(fields: seq<Field>, key: string): Option<nat> {
    IndexFrom(fields, TrimSpace(key), 0)
  }

  /** No key goes by the name of another field. */
  ghost predicate DistinctKeys(fields: seq<Field>) {
    && (forall i :: 0 <= i < |fields| ==> TrimSpace(fields[i].key) == fields[i].key)
    && (forall i, j :: 0 <= i < |fields| && 0 <= j < |fields| && i != j ==> !Names(fields[i], fields[j].key))
  }

  lemma KeyIndex(fields: seq<Field>, i: nat)
    requires DistinctKeys(fields) && i < |fields|
    ensures ExplicitIndex(fields, fields[i].key) == Some(i)
  {
    hide TrimSpace, IndexFrom;
    assert Names(fields[i], fields[i].key);
  }

  // ----- what the struct means -----

  /** The weights of a struct and the bits of its mask. */
  datatype Weights = Weights(values: seq<int>, explicit: set<nat>)

  ghost predicate Shaped(w: Weights, fields: seq<Field>) {
    |w.values| == |fields| && forall i <- w.explicit :: i < |fields|
  }

  /** The weight that counts: a zero that nobody chose gives way to the default. */
  function Effective(w: Weights, defaults: seq<int>): seq<int>
    requires |defaults| == |w.values|
  {
    seq(|w.values|, i requires 0 <= i < |w.values| =>
      if w.values[i] == 0 && i !in w.explicit then defaults[i] else w.values[i])
  }

  // ----- the object that the struct encodes to -----

  datatype Value = Null | Int(n: int)

  type Object = seq<(string, Value)>

  /** The weights that `omitempty` keeps, from the `i`-th on. */
  function NonZero(values: seq<int>, i: nat): seq<nat>
    requires i <= |values|
    decreases |values| - i
  {
    if i == |values| then [] else (if values[i] == 0 then [] else [i]) + NonZero(values, i + 1)
  }

  /** The zeros that were chosen, from the `i`-th weight on. */
  function ChosenZeros(w: Weights, i: nat): seq<nat>
    requires i <= |w.values|
    decreases |w.values| - i
  {
    if i == |w.values| then []
    else (if i in w.explicit && w.values[i] == 0 then [i] else []) + ChosenZeros(w, i + 1)
  }

  function MembersFor(fields: seq<Field>, values: seq<int>, indexes: seq<nat>): Object
    requires |values| == |fields| && forall k :: 0 <= k < |indexes| ==> indexes[k] < |fields|
  {
    seq(|indexes|, k requires 0 <= k < |indexes| => (fields[indexes[k]].key, Int(values[indexes[k]])))
  }

  lemma PutFirst(i: nat, rest: seq<nat>)
    requires NoDuplicates(rest) && forall k <- rest :: k > i
    ensures NoDuplicates([i] + rest)
    ensures forall k: nat :: k in [i] + rest <==> k == i || k in rest
  {
    var all := [i] + rest;
    assert forall j :: 0 < j < |all| ==> all[j] == rest[j - 1] && all[j] in rest;
  }

  lemma {:induction false} NonZeroIndexes(values: seq<int>, i: nat)
    requires i <= |values|
    ensures forall k: nat :: k in NonZero(values, i) <==> i <= k < |values| && values[k] != 0
    ensures NoDuplicates(NonZero(values, i))
    decreases |values| - i
  {
    if i < |values| {
      NonZeroIndexes(values, i + 1);
      var rest := NonZero(values, i + 1);
      NonZeroNext(values, i, rest);
      assert NonZero(values, i) == if values[i] == 0 then rest else [i] + rest;
      hide NonZero, NoDuplicates;
    }
  }

  lemma NonZeroNext(values: seq<int>, i: nat, rest: seq<nat>)
    requires i < |values| && NoDuplicates(rest)
    requires forall k: nat :: k in rest <==> i + 1 <= k < |values| && values[k] != 0
    ensures var all := if values[i] == 0 then rest else [i] + rest;
      NoDuplicates(all) && forall k: nat :: k in all <==> i <= k < |values| && values[k] != 0
  {
    PutFirst(i, rest);
    hide NoDuplicates;
  }

  lemma {:induction false} ChosenZeroIndexes(w: Weights, i: nat)
    requires i <= |w.values|
    ensures forall k: nat :: k in ChosenZeros(w, i) <==> i <= k < |w.values| && w.values[k] == 0 && k in w.explicit
    ensures NoDuplicates(ChosenZeros(w, i))
    decreases |w.values| - i
  {
    if i < |w.values| {
      ChosenZeroIndexes(w, i + 1);
      var rest := ChosenZeros(w, i + 1);
      assert ChosenZeros(w, i) == if i in w.explicit && w.values[i] == 0 then [i] + rest else rest;
      hide ChosenZeros, NoDuplicates;
      PutFirst(i, rest);
    }
  }

  /** The weights that an encoding mentions, in its order. */
  function Mentioned(w: Weights): seq<nat> {
    NonZero(w.values, 0) + ChosenZeros(w, 0)
  }

  lemma MentionedOnce(w: Weights)
    ensures NoDuplicates(Mentioned(w))
    ensures forall k :: 0 <= k < |Mentioned(w)| ==> Mentioned(w)[k] < |w.values|
    ensures forall i: nat :: i in Mentioned(w) <==> i < |w.values| && (w.values[i] != 0 || i in w.explicit)
  {
    NonZeroIndexes(w.values, 0);
    ChosenZeroIndexes(w, 0);
    hide NonZero, ChosenZeros;
    var a, b := NonZero(w.values, 0), ChosenZeros(w, 0);
    forall i, j | 0 <= i < j < |a + b| ensures (a + b)[i] != (a + b)[j] {
      if i < |a| <= j {
        assert a[i] in a && b[j - |a|] in b;
      }
    }
    forall k | 0 <= k < |a + b| ensures (a + b)[k] < |w.values| {
      assert if k < |a| then a[k] in a else b[k - |a|] in b;
    }
  }

  /** `MarshalYAML`, and `MarshalJSON` before printing: the plain fields, then the chosen zeros they left out. */
  function Encode(fields: seq<Field>, w: Weights): Object
    requires |w.values| == |fields| && forall k :: 0 <= k < |Mentioned(w)| ==> Mentioned(w)[k] < |fields|
  {
    MembersFor(fields, w.values, Mentioned(w))
  }

  /** Whether a key of an object means a field: the JSON codec ignores case. */
  predicate Matches(json: bool, key: string, field: string) {
    if json then EqualFold(key, field) else key == field
  }

  /** The value that an object gives to a field: the last one that is not null under a matching key. */
  function ValueOf(json: bool, o: Object, key: string, before: int): int {
    if o == [] then before
    else
      var (k, v) := o[|o| - 1];
      if v.Int? && Matches(json, k, key) then v.n else ValueOf(json, o[..|o| - 1], key, before)
  }

  /** What an object finally holds under exactly this key. */
  function LastUnder(o: Object, key: string): Value {
    if o == [] then Null else if o[|o| - 1].0 == key then o[|o| - 1].1 else LastUnder(o[..|o| - 1], key)
  }

  /** `markJSONPresence` and `markYAMLPresence`: whether an object states a field. */
  ghost predicate States(json: bool, o: Object, key: string) {
    exists m :: m in o && Matches(json, m.0, key) && LastUnder(o, m.0).Int?
  }

  /** `UnmarshalJSON` and `UnmarshalYAML`. */
  ghost function Decode(json: bool, fields: seq<Field>, w: Weights, o: Object): Weights
    requires |w.values| == |fields|
  {
    Weights(seq(|fields|, i requires 0 <= i < |fields| => ValueOf(json, o, fields[i].key, w.values[i])),
            w.explicit + set i: nat | i < |fields| && States(json, o, fields[i].key))
  }

  function Unset(fields: seq<Field>): Weights {
    Weights(seq(|fields|, i => 0), {})
  }

  // ----- encoding keeps the meaning -----

  /** No key occurs twice, in whatever case. */
  ghost predicate Unrepeated(o: Object) {
    forall i, j :: 0 <= i < j < |o| ==> !EqualFold(o[i].0, o[j].0)
  }

  lemma EncodingUnrepeated(fields: seq<Field>, w: Weights)
    requires |w.values| == |fields| && DistinctKeys(fields)
    ensures forall k :: 0 <= k < |Mentioned(w)| ==> Mentioned(w)[k] < |fields|
    ensures Unrepeated(Encode(fields, w))
  {
    MentionedOnce(w);
    hide Mentioned, EqualFold, TrimSpace;
    var o, m := Encode(fields, w), Mentioned(w);
    forall i, j | 0 <= i < j < |o| ensures !EqualFold(o[i].0, o[j].0) {
      assert m[i] != m[j] && !Names(fields[m[i]], fields[m[j]].key);
    }
  }

  lemma {:induction false} ValueOfMember(json: bool, o: Object, key: string, before: int, k: nat)
    requires Unrepeated(o) && k < |o| && o[k].0 == key && o[k].1.Int?
    ensures ValueOf(json, o, key, before) == o[k].1.n
    ensures LastUnder(o, key) == o[k].1
  {
    var n := |o| - 1;
    assert o == o[..n] + [o[n]];
    if k < n {
      ValueOfMember(json, o[..n], key, before, k);
    }
  }

  lemma {:induction false} ValueOfAbsent(json: bool, o: Object, key: string, before: int)
    requires forall m <- o :: !EqualFold(m.0, key)
    ensures ValueOf(json, o, key, before) == before
  {
    if o != [] {
      var n := |o| - 1;
      assert o == o[..n] + [o[n]];
      ValueOfAbsent(json, o[..n], key, before);
    }
  }

  lemma MentionedField(json: bool, fields: seq<Field>, w: Weights, i: nat, k: nat)
    requires |w.values| == |fields| && i < |fields| && DistinctKeys(fields)
    requires k < |Mentioned(w)| && Mentioned(w)[k] == i
    ensures forall j :: 0 <= j < |Mentioned(w)| ==> Mentioned(w)[j] < |fields|
    ensures ValueOf(json, Encode(fields, w), fields[i].key, 0) == w.values[i]
    ensures States(json, Encode(fields, w), fields[i].key)
  {
    EncodingUnrepeated(fields, w);
    hide Mentioned, EqualFold, DistinctKeys;
    var o := Encode(fields, w);
    assert o[k] == (fields[i].key, Int(w.values[i]));
    ValueOfMember(json, o, fields[i].key, 0, k);
    FoldsItself(fields[i].key);
    hide Unrepeated, ValueOf, LastUnder, Encode;
    assert o[k] in o && Matches(json, o[k].0, fields[i].key);
  }

  lemma UnmentionedField(json: bool, fields: seq<Field>, w: Weights, i: nat)
    requires |w.values| == |fields| && i < |fields| && DistinctKeys(fields) && i !in Mentioned(w)
    ensures forall j :: 0 <= j < |Mentioned(w)| ==> Mentioned(w)[j] < |fields|
    ensures ValueOf(json, Encode(fields, w), fields[i].key, 0) == 0
    ensures !States(json, Encode(fields, w), fields[i].key)
  {
    MentionedOnce(w);
    hide Mentioned, EqualFold, TrimSpace, ValueOf, LastUnder;
    var o, m := Encode(fields, w), Mentioned(w);
    forall x <- o ensures !EqualFold(x.0, fields[i].key) {
      var k :| 0 <= k < |o| && o[k] == x;
      assert m[k] in m && !Names(fields[m[k]], fields[i].key);
    }
    hide DistinctKeys, Encode;
    FoldsItself(fields[i].key);
    ValueOfAbsent(json, o, fields[i].key, 0);
  }

  /** What decoding an encoding finds for one field. */
  lemma DecodedField(json: bool, fields: seq<Field>, w: Weights, i: nat)
    requires |w.values| == |fields| && DistinctKeys(fields) && i < |fields|
    ensures forall k :: 0 <= k < |Mentioned(w)| ==> Mentioned(w)[k] < |fields|
    ensures ValueOf(json, Encode(fields, w), fields[i].key, 0) == w.values[i]
    ensures States(json, Encode(fields, w), fields[i].key) <==> w.values[i] != 0 || i in w.explicit
  {
    MentionedOnce(w);
    hide Mentioned, EqualFold, DistinctKeys, ValueOf, States, Encode;
    if i in Mentioned(w) {
      var k :| 0 <= k < |Mentioned(w)| && Mentioned(w)[k] == i;
      MentionedField(json, fields, w, i, k);
    } else {
      UnmentionedField(json, fields, w, i);
    }
  }

  lemma FoldsItself(key: string)
    ensures EqualFold(key, key)
  {
  }

  /** Encoding a struct and decoding it again keeps every weight, and makes every weight it mentions explicit. */
  lemma RoundTripKeepsValues(json: bool, fields: seq<Field>, w: Weights)
    requires Shaped(w, fields) && DistinctKeys(fields)
    ensures forall k :: 0 <= k < |Mentioned(w)| ==> Mentioned(w)[k] < |fields|
    ensures Decode(json, fields, Unset(fields), Encode(fields, w)) == Weights(w.values, set i | i in Mentioned(w))
  {
    MentionedOnce(w);
    hide DistinctKeys, Mentioned, ValueOf, States, Encode, Decode;
    var o := Encode(fields, w);
    forall i: nat | i < |fields|
      ensures ValueOf(json, o, fields[i].key, 0) == w.values[i]
      ensures States(json, o, fields[i].key) <==> w.values[i] != 0 || i in w.explicit
    {
      DecodedField(json, fields, w, i);
    }
    DecodedFrom(json, fields, w, o);
  }

  lemma DecodedFrom(json: bool, fields: seq<Field>, w: Weights, o: Object)
    requires |w.values| == |fields|
    requires forall i: nat :: i < |fields| ==> ValueOf(json, o, fields[i].key, 0) == w.values[i]
    requires forall i: nat :: i < |fields| ==> (States(json, o, fields[i].key) <==> w.values[i] != 0 || i in w.explicit)
    ensures Decode(json, fields, Unset(fields), o) == Weights(w.values, set i | i in Mentioned(w))
  {
    MentionedOnce(w);
    hide ValueOf, States, Mentioned;
    var d := Decode(json, fields, Unset(fields), o);
    assert d.values == w.values;
    assert d.explicit == set i | i in Mentioned(w);
  }

  /** So the weights that count are the same with and without the round trip, for every struct and all defaults. */
  lemma RoundTripKeepsMeaning(json: bool, fields: seq<Field>, w: Weights, defaults: seq<int>)
    requires Shaped(w, fields) && DistinctKeys(fields) && |defaults| == |fields|
    ensures forall k :: 0 <= k < |Mentioned(w)| ==> Mentioned(w)[k] < |fields|
    ensures Effective(Decode(json, fields, Unset(fields), Encode(fields, w)), defaults) == Effective(w, defaults)
  {
    RoundTripKeepsValues(json, fields, w);
    MentionedOnce(w);
    hide DistinctKeys, Mentioned, Encode, Decode;
  }

  /** A parent that omits an unset struct loses nothing: exactly those encode to nothing. */
  lemma EmptyEncodingIffZero(fields: seq<Field>, w: Weights)
    requires Shaped(w, fields)
    ensures forall k :: 0 <= k < |Mentioned(w)| ==> Mentioned(w)[k] < |fields|
    ensures Encode(fields, w) == [] <==> w == Unset(fields)
  {
    MentionedOnce(w);
    hide Mentioned;
    var m := Mentioned(w);
    if m == [] {
      forall i: nat | i < |fields| ensures w.values[i] == 0 && i !in w.explicit {
        assert i !in m;
      }
      assert w.values == Unset(fields).values;
      assert w.explicit == {};
    } else {
      assert m[0] in m;
    }
  }

  /** Applying the defaults a second time changes nothing. */
  lemma DefaultsOnce(w: Weights, defaults: seq<int>)
    requires |defaults| == |w.values|
    ensures Effective(Weights(Effective(w, defaults), w.explicit), defaults) == Effective(w, defaults)
  {
  }

  // ----- the two tables -----

  /** What tells the keys of a table apart: their length, their first two characters and where they have an underscore. */
  datatype Shape = Shape(length: nat, first: char, second: char, underscore: nat)

  ghost predicate HasShape(f: Field, s: Shape) {
    && |f.key| == s.length > 2 && f.key[0] == s.first && f.key[1] == s.second
    && s.underscore < |f.key| && f.key[s.underscore] == '_'
    && 'a' <= s.first <= 'z' && 'a' <= s.second <= 'z' && !IsSpace(f.key[|f.key| - 1])
    && '_' !in f.name
  }

  lemma FoldAt(a: string, b: string, k: nat)
    requires EqualFold(a, b) && k < |a|
    ensures k < |b| && LowerChar(a[k]) == LowerChar(b[k])
  {
    assert Lower(a)[k] == Lower(b)[k] && |Lower(a)| == |Lower(b)|;
  }

  lemma TrimmedAlready(s: string)
    requires s != "" && !IsSpace(s[0]) && !IsSpace(s[|s| - 1])
    ensures TrimSpace(s) == s
  {
  }

  lemma ShapesTellApart(fields: seq<Field>, shapes: seq<Shape>)
    requires |shapes| == |fields| && (forall i :: 0 <= i < |fields| ==> HasShape(fields[i], shapes[i]))
    requires forall i, j :: 0 <= i < |fields| && 0 <= j < |fields| && i != j ==>
      shapes[i].length != shapes[j].length || shapes[i].first != shapes[j].first || shapes[i].second != shapes[j].second
    ensures DistinctKeys(fields)
  {
    hide EqualFold, Lower, TrimSpace, IsSpace;
    forall i | 0 <= i < |fields| ensures TrimSpace(fields[i].key) == fields[i].key {
      LettersAreNotSpace(fields[i].key[0]);
      assert HasShape(fields[i], shapes[i]);
      TrimmedAlready(fields[i].key);
    }
    forall i, j | 0 <= i < |fields| && 0 <= j < |fields| && i != j ensures !Names(fields[i], fields[j].key) {
      assert HasShape(fields[i], shapes[i]) && HasShape(fields[j], shapes[j]);
      KeysApart(fields[i], shapes[i], fields[j], shapes[j]);
      NameApart(fields[i], fields[j], shapes[j]);
    }
  }

  lemma LettersAreNotSpace(c: char)
    ensures 'a' <= c <= 'z' ==> !IsSpace(c)
  {
  }

  lemma KeysApart(f: Field, s: Shape, g: Field, t: Shape)
    requires HasShape(f, s) && HasShape(g, t)
    requires s.length != t.length || s.first != t.first || s.second != t.second
    ensures !EqualFold(f.key, g.key)
  {
    if EqualFold(f.key, g.key) {
      assert |Lower(f.key)| == |Lower(g.key)|;
      FoldAt(f.key, g.key, 0);
      FoldAt(f.key, g.key, 1);
    }
  }

  lemma NameApart(f: Field, g: Field, t: Shape)
    requires HasShape(g, t) && '_' !in f.name
    ensures !EqualFold(f.name, g.key)
  {
    assert forall c <- f.name :: LowerChar(c) != '_';
    if EqualFold(f.name, g.key) {
      assert |Lower(f.name)| == |Lower(g.key)|;
      FoldAt(f.name, g.key, t.underscore);
    }
  }

  const RISK_SHAPES: seq<Shape> := [
    Shape(19, 'c', 'h', 7),
    Shape(19, 'f', 'a', 4),
    Shape(19, 'w', 'a', 4),
    Shape(15, 's', 'e', 8),
    Shape(19, 's', 'u', 6),
    Shape(19, 'c', 'o', 8),
    Shape(20, 'a', 'i', 2),
    Shape(16, 'a', 'i', 2),
    Shape(18, 's', 'l', 4)]

  const PRODUCTION_SHAPES: seq<Shape> := [
    Shape(18, 'r', 'e', 11),
    Shape(11, 'd', 'a', 4),
    Shape(11, 'f', 'a', 4),
    Shape(11, 'w', 'a', 4)]

  lemma ChangedFileShape()
    ensures HasShape(Field("changed_file_weight", "ChangedFileWeight"), Shape(19, 'c', 'h', 7))
  {
    LettersAreNotSpace('t');
    LettersAreNotSpace('r');
    hide IsSpace;
  }

  lemma FailFindingShape()
    ensures HasShape(Field("fail_finding_weight", "FailFindingWeight"), Shape(19, 'f', 'a', 4))
  {
    LettersAreNotSpace('t');
    LettersAreNotSpace('r');
    hide IsSpace;
  }

  lemma ChangeShapes()
    ensures HasShape(Field("changed_file_weight", "ChangedFileWeight"), Shape(19, 'c', 'h', 7))
    ensures HasShape(Field("fail_finding_weight", "FailFindingWeight"), Shape(19, 'f', 'a', 4))
  {
    hide *;
    ChangedFileShape();
    FailFindingShape();
  }

  lemma WarnShapes()
    ensures HasShape(Field("warn_finding_weight", "WarnFindingWeight"), Shape(19, 'w', 'a', 4))
    ensures HasShape(Field("security_weight", "SecurityWeight"), Shape(15, 's', 'e', 8))
  {
    LettersAreNotSpace('t');
    LettersAreNotSpace('r');
    hide IsSpace;
  }

  lemma SupplyChainShape()
    ensures HasShape(Field("supply_chain_weight", "SupplyChainWeight"), Shape(19, 's', 'u', 6))
  {
    LettersAreNotSpace('t');
    LettersAreNotSpace('r');
    hide IsSpace;
  }

  lemma CoverageGapShape()
    ensures HasShape(Field("coverage_gap_weight", "CoverageGapWeight"), Shape(19, 'c', 'o', 8))
  {
    LettersAreNotSpace('t');
    LettersAreNotSpace('r');
    hide IsSpace;
  }

  lemma ChainShapes()
    ensures HasShape(Field("supply_chain_weight", "SupplyChainWeight"), Shape(19, 's', 'u', 6))
    ensures HasShape(Field("coverage_gap_weight", "CoverageGapWeight"), Shape(19, 'c', 'o', 8))
  {
    hide *;
    SupplyChainShape();
    CoverageGapShape();
  }

  lemma SignalShapes()
    ensures HasShape(Field("ai_provenance_weight", "AIProvenanceWeight"), Shape(20, 'a', 'i', 2))
    ensures HasShape(Field("ai_signal_weight", "AISignalWeight"), Shape(16, 'a', 'i', 2))
  {
    LettersAreNotSpace('t');
    LettersAreNotSpace('r');
    hide IsSpace;
  }

  lemma DivisorShape()
    ensures HasShape(Field("slop_score_divisor", "SlopScoreDivisor"), Shape(18, 's', 'l', 4))
  {
    LettersAreNotSpace('t');
    LettersAreNotSpace('r');
    hide IsSpace;
  }

  lemma ImpactShapes()
    ensures HasShape(Field("reliability_weight", "ReliabilityWeight"), Shape(18, 'r', 'e', 11))
    ensures HasShape(Field("data_weight", "DataWeight"), Shape(11, 'd', 'a', 4))
  {
    LettersAreNotSpace('t');
    LettersAreNotSpace('r');
    hide IsSpace;
  }

  lemma LevelShapes()
    ensures HasShape(Field("fail_weight", "FailWeight"), Shape(11, 'f', 'a', 4))
    ensures HasShape(Field("warn_weight", "WarnWeight"), Shape(11, 'w', 'a', 4))
  {
    LettersAreNotSpace('t');
    LettersAreNotSpace('r');
    hide IsSpace;
  }

  lemma RiskShapes()
    ensures forall i :: 0 <= i < 9 ==> HasShape(RISK_FIELDS[i], RISK_SHAPES[i])
  {
    ChangeShapes();
    WarnShapes();
    ChainShapes();
    SignalShapes();
    DivisorShape();
    hide HasShape;
  }

  lemma ProductionShapes()
    ensures forall i :: 0 <= i < 4 ==> HasShape(PRODUCTION_FIELDS[i], PRODUCTION_SHAPES[i])
  {
    ImpactShapes();
    LevelShapes();
    hide HasShape;
  }

  /** Both tables give every weight a key of its own, so the pipeline above holds for both structs. */
  lemma TablesDistinct()
    ensures DistinctKeys(RISK_FIELDS) && DistinctKeys(PRODUCTION_FIELDS)
    ensures |RISK_DEFAULTS| == |RISK_FIELDS| == 9 && |PRODUCTION_FIELDS| == 4
  {
    RiskShapes();
    ProductionShapes();
    hide HasShape, DistinctKeys;
    ShapesTellApart(RISK_FIELDS, RISK_SHAPES);
    ShapesTellApart(PRODUCTION_FIELDS, PRODUCTION_SHAPES);
  }

  /** The risk-scoring weights that count survive encoding and decoding, in either format. */
  lemma RiskScoringRoundTrip(json: bool, w: Weights)
    requires Shaped(w, RISK_FIELDS) && |RISK_DEFAULTS| == |RISK_FIELDS|
    ensures forall k :: 0 <= k < |Mentioned(w)| ==> Mentioned(w)[k] < |RISK_FIELDS|
    ensures Unrepeated(Encode(RISK_FIELDS, w))
    ensures Effective(Decode(json, RISK_FIELDS, Unset(RISK_FIELDS), Encode(RISK_FIELDS, w)), RISK_DEFAULTS)
         == Effective(w, RISK_DEFAULTS)
  {
    TablesDistinct();
    hide DistinctKeys, Mentioned, Encode, Decode, Effective, Unrepeated;
    var fields := RISK_FIELDS;
    EncodingUnrepeated(fields, w);
    RoundTripKeepsMeaning(json, fields, w, RISK_DEFAULTS);
  }

  /** So do the production-risk weights, whatever profile the defaults come from. */
  lemma ProductionRiskRoundTrip(json: bool, w: Weights, defaults: seq<int>)
    requires Shaped(w, PRODUCTION_FIELDS) && |defaults| == |PRODUCTION_FIELDS|
    ensures forall k :: 0 <= k < |Mentioned(w)| ==> Mentioned(w)[k] < |PRODUCTION_FIELDS|
    ensures Unrepeated(Encode(PRODUCTION_FIELDS, w))
    ensures Effective(Decode(json, PRODUCTION_FIELDS, Unset(PRODUCTION_FIELDS), Encode(PRODUCTION_FIELDS, w)), defaults)
         == Effective(w, defaults)
  {
    TablesDistinct();
    hide DistinctKeys, Mentioned, Encode, Decode, Effective, Unrepeated;
    var fields := PRODUCTION_FIELDS;
    EncodingUnrepeated(fields, w);
    RoundTripKeepsMeaning(json, fields, w, defaults);
  }
}
