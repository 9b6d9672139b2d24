/** The weight structs as they are updated in place, and the text that JSON encoding appends to. */
module ExplicitWeights {
  import opened Text
  import opened Wrappers
  import opened ExplicitConfig

  /** The bits that a list of keys names, or none when one of them names no field. */
  ghost predicate NamesBits(fields: seq<Field>, keys: seq<string>, bits: set<nat>) {
    && (forall key <- keys :: ExplicitIndex(fields, key).Some? && ExplicitIndex(fields, key).value in bits)
    && (forall i <- bits :: exists key :: key in keys && ExplicitIndex(fields, key) == Some(i))
  }

  /** A config struct with tracked weights, `RiskScoringConfig` or `ProductionRiskConfig`. */
  class WeightConfig {
    const fields: seq<Field>
    var values: seq<int>
    var explicit: set<nat>

    ghost predicate Valid()
      reads this
    {
      Shaped(Weights(values, explicit), fields)
    }

    constructor (fields: seq<Field>)
      ensures Valid() && this.fields == fields && Weights(values, explicit) == Unset(fields)
    {
      this.fields := fields;
      values, explicit := seq(|fields|, i => 0), {};
    }

    /** `updateExplicit`: all of the keys, or none when one is unknown; the first such key is reported. */
    method UpdateExplicit(setting: bool, keys: seq<string>) returns (unknown: Option<string>)
      requires Valid()
      modifies this`explicit
      ensures Valid()
      ensures unknown.Some? <==> exists key :: key in keys && ExplicitIndex(fields, key).None?
      ensures unknown.Some? ==> explicit == old(explicit) && unknown.value in keys && ExplicitIndex(fields, unknown.value).None?
      ensures unknown.None? ==> (exists bits :: NamesBits(fields, keys, bits)
                                   && explicit == (if setting then old(explicit) + bits else old(explicit) - bits))
    {
      hide ExplicitIndex;
      var bits: set<nat> := {};
      for n := 0 to |keys|
        invariant explicit == old(explicit)
        invariant NamesBits(fields, keys[..n], bits) && forall i <- bits :: i < |fields|
      {
        var index := ExplicitIndex(fields, keys[n]);
        IndexInRange(fields, keys[n]);
        if index.None? {
          assert keys[n] in keys;
          return Some(keys[n]);
        }
        assert keys[..n + 1] == keys[..n] + [keys[n]];
        MoreBits(fields, keys[..n], bits, keys[n], index.value);
        bits := bits + {index.value};
      }
      assert keys[..|keys|] == keys;
      explicit := if setting then explicit + bits else explicit - bits;
      return None;
    }

    /** `isExplicit`. */
    predicate IsExplicit(key: string)
      reads this
    {
      var index := ExplicitIndex(fields, key);
      index.Some? && index.value in explicit
    }

    /** `defaultUnlessExplicit` on weight `i`. */
    method DefaultUnlessExplicit(i: nat, stated: bool, default: int)
      requires Valid() && i < |fields|
      modifies this`values
      ensures Valid() && values == old(values)[i := if old(values)[i] == 0 && !stated then default else old(values)[i]]
    {
      if values[i] == 0 && !stated {
        values := values[i := default];
      }
    }

    /** `applyRiskScoringDefaults` and `applyProductionRiskDefaults`, field by field in table order. */
    method ApplyDefaults(defaults: seq<int>)
      requires Valid() && DistinctKeys(fields) && |defaults| == |fields|
      modifies this`values
      ensures Valid() && values == Effective(Weights(old(values), explicit), defaults)
      ensures forall i :: 0 <= i < |fields| ==>
        values[i] == if old(values)[i] != 0 || i in explicit then old(values)[i] else defaults[i]
    {
      hide DistinctKeys, ExplicitIndex;
      ghost var target := Effective(Weights(values, explicit), defaults);
      for i := 0 to |fields|
        invariant |values| == |fields|
        invariant forall k :: 0 <= k < i ==> values[k] == target[k]
        invariant forall k :: i <= k < |fields| ==> values[k] == old(values)[k]
      {
        KeyIndex(fields, i);
        DefaultUnlessExplicit(i, IsExplicit(fields[i].key), defaults[i]);
      }
    }

    /** `explicitZeroKeys`. */
    method ExplicitZeroKeys() returns (keys: seq<string>)
      requires Valid()
      ensures |keys| == |ChosenZeros(Weights(values, explicit), 0)|
      ensures forall k :: 0 <= k < |keys| ==>
        ChosenZeros(Weights(values, explicit), 0)[k] < |fields| && keys[k] == fields[ChosenZeros(Weights(values, explicit), 0)[k]].key
    {
      ghost var w := Weights(values, explicit);
      ghost var chosen: seq<nat> := [];
      keys := [];
      for i := 0 to |fields|
        invariant |keys| == |chosen| && chosen + ChosenZeros(w, i) == ChosenZeros(w, 0)
        invariant forall k :: 0 <= k < |keys| ==> chosen[k] < |fields| && keys[k] == fields[chosen[k]].key
      {
        if i in explicit && values[i] == 0 {
          keys := keys + [fields[i].key];
          assert chosen + ChosenZeros(w, i) == chosen + [i] + ChosenZeros(w, i + 1);
          chosen := chosen + [i];
        }
      }
    }
  }

  lemma IndexInRange(fields: seq<Field>, key: string)
    ensures ExplicitIndex(fields, key).Some? ==> ExplicitIndex(fields, key).value < |fields|
  {
    hide TrimSpace;
  }

  lemma MoreBits(fields: seq<Field>, keys: seq<string>, bits: set<nat>, key: string, i: nat)
    requires NamesBits(fields, keys, bits) && ExplicitIndex(fields, key) == Some(i)
    ensures NamesBits(fields, keys + [key], bits + {i})
  {
    hide ExplicitIndex;
    assert key in keys + [key];
    forall b <- bits ensures exists k :: k in keys + [key] && ExplicitIndex(fields, k) == Some(b) {
      var k :| k in keys && ExplicitIndex(fields, k) == Some(b);
      assert k in keys + [key];
    }
  }

  // ----- the text of a JSON object -----

  function PrintInt(n: int): string {
    if n < 0 then "-" + Decimal(-n) else Decimal(n)
  }

  function PrintMember(m: (string, int)): string {
    "\"" + m.0 + "\":" + PrintInt(m.1)
  }

  function PrintMembers(members: seq<(string, int)>): string {
    if members == [] then ""
    else if |members| == 1 then PrintMember(members[0])
    else PrintMembers(members[..|members| - 1]) + "," + PrintMember(members[|members| - 1])
  }

  function PrintObject(members: seq<(string, int)>): string {
    "{" + PrintMembers(members) + "}"
  }

  function ZeroMembers(keys: seq<string>): seq<(string, int)> {
    seq(|keys|, i requires 0 <= i < |keys| => (keys[i], 0))
  }

  lemma PrintMembersSnoc(members: seq<(string, int)>, m: (string, int))
    ensures PrintMembers(members + [m]) == (if members == [] then "" else PrintMembers(members) + ",") + PrintMember(m)
    ensures PrintMembers(members + [m]) != ""
  {
    assert (members + [m])[..|members|] == members;
  }

  /** `appendJSONExplicitZeros` on a printed object: the members are spliced in before the closing brace. */
  method AppendZeros(members: seq<(string, int)>, data: string, keys: seq<string>) returns (out: string)
    requires data == PrintObject(members)
    ensures out == PrintObject(members + ZeroMembers(keys))
  {
    hide PrintMember, PrintMembers;
    if |keys| == 0 {
      assert members + ZeroMembers(keys) == members;
      return data;
    }
    out := data[..|data| - 1];
    var needComma := |out| > 1;
    NoMembers(members);
    assert members + ZeroMembers(keys[..0]) == members;
    for n := 0 to |keys|
      invariant out == "{" + PrintMembers(members + ZeroMembers(keys[..n]))
      invariant needComma <==> members + ZeroMembers(keys[..n]) != []
    {
      var before := members + ZeroMembers(keys[..n]);
      assert members + ZeroMembers(keys[..n + 1]) == before + [(keys[n], 0)];
      PrintMembersSnoc(before, (keys[n], 0));
      if needComma {
        out := out + ",";
      }
      out := out + PrintMember((keys[n], 0));
      needComma := true;
    }
    assert keys[..|keys|] == keys;
    out := out + "}";
  }

  lemma NoMembers(members: seq<(string, int)>)
    ensures PrintMembers(members) == "" <==> members == []
  {
    if members != [] {
      assert members[..|members| - 1] + [members[|members| - 1]] == members;
      PrintMembersSnoc(members[..|members| - 1], members[|members| - 1]);
    }
  }
}
