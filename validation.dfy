/** The condition validator node: flags each extracted condition as HCC-relevant
    or not (packages/workflows/hcc_extractor/v0/agent/nodes/condition/validation.py). */
module Validation {
  import opened Codes
  import opened Records

  /** The set the validator looks codes up in: the caller's pre-built set when it
      is non-empty (a missing set and an empty one are both falsy), otherwise the
      two-form set built from the loaded codes. */
  function ActiveLookup(preset: set<string>, hccCodes: seq<string>): set<string> {
    if preset != {} then preset else LookupSet(hccCodes)
  }

  /** One validated record: code, name and data copied unchanged, plus the flag. */
  function Validate(c: Condition, lookup: set<string>): ValidatedCondition {
    ValidatedCondition(c.code, c.name, IsHcc(c.code, lookup), c.data)
  }

  /** The validation loop: one record per input condition, in order. */
  method ValidateAll(raw: seq<Condition>, lookup: set<string>) returns (out: seq<ValidatedCondition>)
    ensures |out| == |raw|
    ensures forall i :: 0 <= i < |raw| ==> out[i] == Validate(raw[i], lookup)
  {
    out := [];
    var i := 0;
    while i < |raw|
      invariant 0 <= i <= |raw|
      invariant |out| == i
      invariant forall k :: 0 <= k < i ==> out[k] == Validate(raw[k], lookup)
    {
      var prev := out;
      out := out + [Validate(raw[i], lookup)];
      assert forall k :: 0 <= k < i ==> out[k] == prev[k];
      i := i + 1;
    }
  }

  /** `condition_validator`: no raw conditions give no conditions; otherwise
      every raw condition yields one validated record with the same code, name
      and data, and, when no pre-built set is supplied, the flag is set exactly
      when some loaded code has the same normal form as the condition's code. */
  method ConditionValidator(raw: seq<Condition>, hccCodes: seq<string>, preset: set<string>)
    returns (out: seq<ValidatedCondition>)
    ensures raw == [] ==> out == []
    ensures |out| == |raw|
    ensures forall i :: 0 <= i < |raw| ==>
      out[i].code == raw[i].code && out[i].name == raw[i].name && out[i].data == raw[i].data
    ensures preset != {} ==> forall i :: 0 <= i < |raw| ==> (out[i].isHcc <==> IsHcc(raw[i].code, preset))
    ensures preset == {} ==> forall i :: 0 <= i < |raw| ==>
      (out[i].isHcc <==> exists t :: t in hccCodes && NormalizeCode(t) == NormalizeCode(raw[i].code))
  {
    if raw == [] {
      return [];
    }
    var lookup := preset;
    if lookup == {} {
      lookup := BuildLookupSet(hccCodes);
    }
    out := ValidateAll(raw, lookup);
    if preset == {} {
      forall i | 0 <= i < |raw|
        ensures out[i].isHcc <==> exists t :: t in hccCodes && NormalizeCode(t) == NormalizeCode(raw[i].code)
      {
        IsHccIffSameNormalForm(raw[i].code, hccCodes);
      }
    }
  }

  /** Without loaded codes and without a pre-built set, nothing is flagged. */
  lemma NoCodesNoHcc(raw: seq<Condition>)
    ensures forall c :: c in raw ==> !Validate(c, ActiveLookup({}, [])).isHcc
  {
    forall c | c in raw ensures !Validate(c, ActiveLookup({}, [])).isHcc {
      EmptyTableNoHcc(c.code);
    }
  }
}
