/** The entry point of the HCC extractor workflow
    (packages/workflows/hcc_extractor/v0/__init__.py): it loads the code table,
    builds the lookup set and either extracts conditions directly or runs the
    agent, falling back to a direct extraction when the agent fails. */
module HccExtractorV0 {
  import opened Wrappers
  import opened Text
  import opened Lists
  import opened Codes
  import opened Records
  import opened Validation
  import opened Extraction

  /** `USE_FALLBACK_EXTRACTION` switches the direct extraction on when its
      lower-cased value is "true", "1" or "yes"; an unset variable reads as "". */
  predicate UseFallback(env: Option<string>) {
    var v := Lower(if env.Some? then env.value else "");
    v == "true" || v == "1" || v == "yes"
  }

  /** A line that opens the assessment-and-plan section for the direct
      extraction: it contains "Assessment" and also "Plan" or "/". */
  predicate IsSectionHeader(line: string) {
    Contains(line, "Assessment") && (Contains(line, "Plan") || Contains(line, "/"))
  }

  function HeaderTest(lines: seq<string>): nat -> bool {
    (k: nat) => k < |lines| && IsSectionHeader(lines[k])
  }

  /** The index of the first header line. */
  function HeaderIndex(lines: seq<string>): (r: Option<nat>)
    ensures r.Some? ==> r.value < |lines| && IsSectionHeader(lines[r.value])
    ensures r.Some? ==> forall k :: 0 <= k < r.value ==> !IsSectionHeader(lines[k])
    ensures r.None? ==> forall k :: 0 <= k < |lines| ==> !IsSectionHeader(lines[k])
  {
    var p := HeaderTest(lines);
    assert forall k: nat :: p(k) == (k < |lines| && IsSectionHeader(lines[k]));
    FirstWhere(p, 0, |lines|)
  }

  /** The section the direct extraction works on: the lines after the first
      header line of `note.split('\n')`, joined by "\n"; `None` when no line is
      a header. */
  function SectionAfterHeader(note: string): Option<string> {
    var lines := Split(note, '\n');
    match HeaderIndex(lines)
    case None => None
    case Some(i) => Some(Join(lines[i + 1..], "\n"))
  }

  /** The search loop of lines 62-69 (repeated at lines 124-131). */
  method FindSection(note: string) returns (section: Option<string>)
    ensures section == SectionAfterHeader(note)
  {
    var lines := Split(note, '\n');
    section := None;
    var i := 0;
    while i < |lines|
      invariant 0 <= i <= |lines|
      invariant forall k :: 0 <= k < i ==> !IsSectionHeader(lines[k])
    {
      if IsSectionHeader(lines[i]) {
        section := Some(Join(lines[i + 1..], "\n"));
        return;
      }
      i := i + 1;
    }
  }

  /** The section is exactly the text after the first header line: when it is
      not empty, splitting it again at "\n" gives back the lines after that
      header, the header is a header and no earlier line is one. */
  lemma SectionRoundTrip(note: string)
    requires SectionAfterHeader(note).Some? && SectionAfterHeader(note).value != []
    ensures var lines := Split(note, '\n'); var i := HeaderIndex(lines).value;
      IsSectionHeader(lines[i]) &&
      (forall k :: 0 <= k < i ==> !IsSectionHeader(lines[k])) &&
      Split(SectionAfterHeader(note).value, '\n') == lines[i + 1..]
  {
    var lines := Split(note, '\n');
    var i := HeaderIndex(lines).value;
    var after := lines[i + 1..];
    assert after != [];
    SplitPiecesFree(note, '\n');
    assert forall k :: 0 <= k < |after| ==> after[k] == lines[i + 1 + k];
    SplitJoin(after, '\n');
  }

  /** A note without a header line gives no section. */
  lemma NoHeaderNoSection(note: string)
    requires forall k :: 0 <= k < |Split(note, '\n')| ==> !IsSectionHeader(Split(note, '\n')[k])
    ensures SectionAfterHeader(note).None?
  {
  }

  /** The validation loop of lines 76-94 and 178-196 (the same copy-and-flag
      step as the validator node). */
  function ValidatedWith(lookup: set<string>): Condition -> ValidatedCondition {
    c => Validate(c, lookup)
  }

  /** `run_hcc_extractor_v0`. The loaded codes, the environment variable and the
      agent's outcome are inputs. With the direct extraction switched on and a
      non-empty section, the result is the regex extraction of the section,
      validated against the lookup set; otherwise the agent's conditions are
      returned; when the agent raises, the inline copy of the two-pattern
      extraction (without its last-resort tier) runs on the section, or the
      result is empty. */
  method RunHccExtractorV0(note: string, hccCodes: seq<string>, env: Option<string>,
                           agent: Outcome<seq<ValidatedCondition>>, p1: Finder, p2: Finder)
    returns (result: seq<ValidatedCondition>)
    ensures var s := SectionAfterHeader(note); var direct := UseFallback(env) && s.Some? && s.value != [];
      (direct ==> result == Map(RegexConditions(s.value, p1, p2), ValidatedWith(LookupSet(hccCodes)))) &&
      (!direct && agent.Returns? ==> result == agent.value) &&
      (!direct && agent.Raises? && s.Some? && s.value != [] ==>
        result == Map(PatternConditions(s.value, p1, p2), ValidatedWith(LookupSet(hccCodes)))) &&
      (!direct && agent.Raises? && (s.None? || s.value == []) ==> result == [])
  {
    var lookup := BuildLookupSet(hccCodes);
    if UseFallback(env) {
      var section := FindSection(note);
      if section.Some? && section.value != [] {
        var conditions := ExtractConditionsWithRegex(section.value, p1, p2);
        result := ValidateConditions(conditions, lookup);
        return;
      }
    }
    match agent
    case Returns(v) =>
      result := v;
    case Raises(_, _) =>
      var section := FindSection(note);
      if section.Some? && section.value != [] {
        var matches := p1(section.value);
        if matches == [] {
          matches := p2(section.value);
        }
        var conditions := MatchConditions(matches);
        result := ValidateConditions(conditions, lookup);
      } else {
        result := [];
      }
  }

  /** The validation loop, stated as the image of the conditions. */
  method ValidateConditions(conditions: seq<Condition>, lookup: set<string>) returns (validated: seq<ValidatedCondition>)
    ensures validated == Map(conditions, ValidatedWith(lookup))
  {
    validated := [];
    var i := 0;
    while i < |conditions|
      invariant 0 <= i <= |conditions|
      invariant validated == Map(conditions[..i], ValidatedWith(lookup))
    {
      var c := conditions[i];
      MapPrefixStep(conditions, i, ValidatedWith(lookup));
      validated := validated + [ValidatedCondition(c.code, c.name, IsHcc(c.code, lookup), c.data)];
      i := i + 1;
    }
    assert conditions[..i] == conditions;
  }

  /** Each validated record keeps its condition's code, name and data, and is
      flagged exactly when some loaded code has the same normal form. */
  lemma ValidatedWithMeaning(conditions: seq<Condition>, hccCodes: seq<string>, k: nat)
    requires k < |conditions|
    ensures var v := Map(conditions, ValidatedWith(LookupSet(hccCodes)))[k];
      v.code == conditions[k].code && v.name == conditions[k].name && v.data == conditions[k].data &&
      (v.isHcc <==> exists t :: t in hccCodes && NormalizeCode(t) == NormalizeCode(conditions[k].code))
  {
    MapAt(conditions, ValidatedWith(LookupSet(hccCodes)), k);
    IsHccIffSameNormalForm(conditions[k].code, hccCodes);
  }
}
