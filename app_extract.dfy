/** The section and block extractors of the web application
    (apps/hcc_extractor_app/methods/extract_conditions.py). The two heading
    patterns are evaluated here by hand (IGNORECASE is ASCII folding); the
    matches of the numbered-item pattern of line 33 are an input. */
module AppExtract {
  import opened Wrappers
  import opened Text
  import opened Lists
  import NoteLoader

  /** The end of the run `[A-Za-z\s]*` from `i`. */
  function LabelRunEnd(s: string, i: nat): (k: nat)
    requires i <= |s|
    ensures i <= k <= |s|
    ensures forall m :: i <= m < k ==> IsLetter(s[m]) || IsSpace(s[m])
    ensures k < |s| ==> !IsLetter(s[k]) && !IsSpace(s[k])
    decreases |s| - i
  {
    if i < |s| && (IsLetter(s[i]) || IsSpace(s[i])) then LabelRunEnd(s, i + 1) else i
  }

  /** `\n\s*[A-Z][A-Za-z\s]*:` matches at `e`: the next line opens, after
      white space, with a letter and a run of letters and white space ending
      in ':'. The classes of the runs are disjoint from what follows them,
      so backtracking finds no other reading. */
  predicate LabelLineAt(s: string, e: nat)
    requires e <= |s|
  {
    e < |s| && s[e] == '\n' &&
    var a := SpacesEnd(s, e + 1);
    a < |s| && IsLetter(s[a]) &&
    var c := LabelRunEnd(s, a + 1);
    c < |s| && s[c] == ':'
  }

  /** `(?:$|(?:\n\s*[A-Z][A-Za-z\s]*:))` holds at `e`: the end of the text, a
      final newline (`$` without MULTILINE), or a label line. */
  predicate IsSectionEnd(s: string, e: nat)
    requires e <= |s|
  {
    e == |s| || (e + 1 == |s| && s[e] == '\n') || LabelLineAt(s, e)
  }

  /** Where the lazy `(.*?)` stops: the first section end from `q` on. */
  function SectionEndFrom(s: string, q: nat): (e: nat)
    requires q <= |s|
    ensures q <= e <= |s| && IsSectionEnd(s, e)
    ensures forall k :: q <= k < e ==> !IsSectionEnd(s, k)
    decreases |s| - q
  {
    if IsSectionEnd(s, q) then q else SectionEndFrom(s, q + 1)
  }

  /** `\s*(?::|$)` read from `c`: the group starts after the colon, or at the
      end of the text. A newline before the end is taken by `\s*`, so the
      `$` before a final newline never decides. */
  function HeadingTail(s: string, c: nat): (r: Option<nat>)
    requires c <= |s|
    ensures r.Some? ==> c < r.value <= |s| || r.value == |s|
  {
    var w := SpacesEnd(s, c);
    if w < |s| && s[w] == ':' then Some(w + 1)
    else if w == |s| then Some(w)
    else None
  }

  /** The two heading patterns of lines 19 and 26. */
  datatype Tier = SlashPlan | AndPlan

  /** Where the group of the tier's pattern starts when its heading matches
      at `j`: "Assessment", `\s*`, one of '/', '&', '+', `\s*`, "Plan"; or the
      literal "Assessment and Plan"; then `\s*(?::|$)`. */
  function HeadingEnd(s: string, j: nat, t: Tier): (r: Option<nat>)
    ensures r.Some? ==> j < r.value <= |s|
  {
    match t
    case SlashPlan =>
      if NoteLoader.IsAtFolded(s, "assessment", j) then
        var a := SpacesEnd(s, j + 10);
        if a < |s| && (s[a] == '/' || s[a] == '&' || s[a] == '+') then
          var b := SpacesEnd(s, a + 1);
          if NoteLoader.IsAtFolded(s, "plan", b) then HeadingTail(s, b + 4) else None
        else None
      else None
    case AndPlan =>
      if NoteLoader.IsAtFolded(s, "assessment and plan", j) then HeadingTail(s, j + 19) else None
  }

  function TierTest(s: string, t: Tier): nat -> bool {
    (j: nat) => HeadingEnd(s, j, t).Some?
  }

  /** The search of the tier matches its heading first at `j`; the group runs
      from `g` to the first section end `e`. */
  ghost predicate SectionSpan(s: string, t: Tier, j: nat, g: nat, e: nat) {
    HeadingEnd(s, j, t) == Some(g) && (forall k :: 0 <= k < j ==> HeadingEnd(s, k, t).None?) &&
    g <= e <= |s| && IsSectionEnd(s, e) && (forall k :: g <= k < e ==> !IsSectionEnd(s, k))
  }

  /** `match.group(1).strip()` for the tier, or `None` when it does not match. */
  function TierSection(s: string, t: Tier): (r: Option<string>)
    ensures r.None? <==> forall j :: 0 <= j <= |s| ==> HeadingEnd(s, j, t).None?
    ensures r.Some? ==> exists j: nat, g: nat, e: nat :: (SectionSpan(s, t, j, g, e) && r.value == Strip(s[g..e]))
  {
    var p := TierTest(s, t);
    assert forall j: nat :: p(j) == HeadingEnd(s, j, t).Some?;
    match FirstWhere(p, 0, |s| + 1)
    case None => None
    case Some(j) =>
      var g := HeadingEnd(s, j, t).value;
      var e := SectionEndFrom(s, g);
      assert SectionSpan(s, t, j, g, e);
      Some(Strip(s[g..e]))
  }

  /** `"".join(m.group(0) for m in matches)`. */
  function Concat(ms: seq<string>): string
    decreases |ms|
  {
    if ms == [] then "" else Concat(ms[..|ms| - 1]) + ms[|ms| - 1]
  }

  lemma {:induction false} ConcatEmpty(ms: seq<string>)
    ensures Concat(ms) == "" <==> forall k :: 0 <= k < |ms| ==> ms[k] == ""
    decreases |ms|
  {
    if ms != [] {
      ConcatEmpty(ms[..|ms| - 1]);
    }
  }

  /** What `extract_assessment_plan_section` returns, given the match texts
      of the numbered-item pattern. */
  function AssessmentPlanSection(noteContent: string, numbered: seq<string>): Option<string> {
    match TierSection(noteContent, SlashPlan)
    case Some(x) => Some(x)
    case None =>
      match TierSection(noteContent, AndPlan)
      case Some(x) => Some(x)
      case None =>
        var ap := Concat(numbered);
        if ap != "" then Some(Strip(ap)) else None
  }

  method ExtractAssessmentPlanSection(noteContent: string, numbered: seq<string>) returns (r: Option<string>)
    ensures r == AssessmentPlanSection(noteContent, numbered)
  {
    var m := TierSection(noteContent, SlashPlan);
    if m.Some? {
      return m;
    }
    m := TierSection(noteContent, AndPlan);
    if m.Some? {
      return m;
    }
    var assessmentPlan := "";
    var i := 0;
    while i < |numbered|
      invariant 0 <= i <= |numbered|
      invariant assessmentPlan == Concat(numbered[..i])
    {
      assert numbered[..i + 1][..i] == numbered[..i];
      assessmentPlan := assessmentPlan + numbered[i];
      i := i + 1;
    }
    assert numbered[..|numbered|] == numbered;
    if assessmentPlan != "" {
      return Some(Strip(assessmentPlan));
    }
    return None;
  }

  /** The tiers in order: the first heading pattern that matches anywhere
      decides; only when neither does are the numbered items joined, and
      `None` comes back exactly when there are none (or all are empty). A
      result is always its own `strip()`. */
  lemma AssessmentPlanSectionMeaning(noteContent: string, numbered: seq<string>)
    ensures var r := AssessmentPlanSection(noteContent, numbered);
      (TierSection(noteContent, SlashPlan).Some? ==> r == TierSection(noteContent, SlashPlan)) &&
      (TierSection(noteContent, SlashPlan).None? && TierSection(noteContent, AndPlan).Some? ==>
         r == TierSection(noteContent, AndPlan)) &&
      (TierSection(noteContent, SlashPlan).None? && TierSection(noteContent, AndPlan).None? ==>
         r == if Concat(numbered) != "" then Some(Strip(Concat(numbered))) else None) &&
      (r.None? <==> (TierSection(noteContent, SlashPlan).None? && TierSection(noteContent, AndPlan).None? &&
         forall k :: 0 <= k < |numbered| ==> numbered[k] == "")) &&
      (r.Some? ==> Strip(r.value) == r.value)
  {
    ConcatEmpty(numbered);
    match TierSection(noteContent, SlashPlan)
    case Some(x) =>
      var j: nat, g: nat, e: nat :| SectionSpan(noteContent, SlashPlan, j, g, e) && x == Strip(noteContent[g..e]);
      StripProperties(noteContent[g..e]);
    case None =>
      match TierSection(noteContent, AndPlan)
      case Some(x) =>
        var j: nat, g: nat, e: nat :| SectionSpan(noteContent, AndPlan, j, g, e) && x == Strip(noteContent[g..e]);
        StripProperties(noteContent[g..e]);
      case None =>
        StripProperties(Concat(numbered));
  }

  /** What the numbered-item pattern of line 33 guarantees of a match text
      (`match.group(0)`): a piece of the note holding an item number `\d+\.`
      and the '-' after the item's name. */
  ghost predicate NumberedMatch(noteContent: string, x: string) {
    Occurs(noteContent, x) && '-' in x && exists j :: 0 <= j < |x| - 1 && IsDigit(x[j]) && x[j + 1] == '.'
  }

  /** A join whose last piece holds a '-' keeps it through `strip()`. */
  lemma ConcatKeepsDash(ms: seq<string>)
    requires ms != [] && '-' in ms[|ms| - 1]
    ensures Strip(Concat(ms)) != ""
  {
    var last := ms[|ms| - 1];
    var i :| 0 <= i < |last| && last[i] == '-';
    var c := Concat(ms);
    assert c == Concat(ms[..|ms| - 1]) + last;
    assert c[|c| - |last| + i] == '-';
    KeptByStrip(c, |c| - |last| + i);
  }

  /** When neither heading matches and the numbered matches are as the pattern
      produces them, `None` comes back exactly when there are no matches;
      otherwise the section is their stripped concatenation, which is never
      empty. */
  lemma NumberedTierMeaning(noteContent: string, numbered: seq<string>)
    requires TierSection(noteContent, SlashPlan).None? && TierSection(noteContent, AndPlan).None?
    requires forall k :: 0 <= k < |numbered| ==> NumberedMatch(noteContent, numbered[k])
    ensures AssessmentPlanSection(noteContent, numbered).None? <==> numbered == []
    ensures numbered != [] ==>
      AssessmentPlanSection(noteContent, numbered) == Some(Strip(Concat(numbered))) &&
      Strip(Concat(numbered)) != ""
  {
    if numbered != [] {
      assert NumberedMatch(noteContent, numbered[|numbered| - 1]);
      ConcatKeepsDash(numbered);
    }
  }

  /** A heading section never reaches past a label line: no line inside it
      opens with "Name:". */
  lemma SectionStopsAtLabel(s: string, t: Tier)
    requires TierSection(s, t).Some?
    ensures exists j: nat, g: nat, e: nat ::
      (SectionSpan(s, t, j, g, e) && TierSection(s, t).value == Strip(s[g..e]) &&
       forall k :: g <= k < e ==> !LabelLineAt(s, k))
  {
    var j: nat, g: nat, e: nat :| SectionSpan(s, t, j, g, e) && TierSection(s, t).value == Strip(s[g..e]);
    forall k | g <= k < e ensures !LabelLineAt(s, k) {
      assert !IsSectionEnd(s, k);
    }
  }

  /** "Assessment & Plan: DM" gives "DM". */
  const SlashExample := "Assessment & Plan: DM"

  lemma SlashExampleHeading()
    ensures HeadingEnd(SlashExample, 0, SlashPlan) == Some(18)
  {
    SlashExampleWords();
    SlashExampleSpaces();
  }

  lemma SlashExampleWords()
    ensures NoteLoader.IsAtFolded(SlashExample, "assessment", 0)
    ensures SlashExample[11] == '&'
    ensures NoteLoader.IsAtFolded(SlashExample, "plan", 13)
  {
    assert SlashExample[0..10] == "Assessment";
    assert SlashExample[13..17] == "Plan";
  }

  lemma SlashExampleSpaces()
    ensures SpacesEnd(SlashExample, 10) == 11
    ensures SpacesEnd(SlashExample, 12) == 13
    ensures HeadingTail(SlashExample, 17) == Some(18)
  {
    assert SpacesEnd(SlashExample, 17) == 17;
  }

  lemma SlashExampleEnd()
    ensures SectionEndFrom(SlashExample, 18) == 21
  {
    assert !IsSectionEnd(SlashExample, 18);
    assert !IsSectionEnd(SlashExample, 19);
    assert !IsSectionEnd(SlashExample, 20);
  }

  lemma SlashExampleStrip()
    ensures Strip(SlashExample[18..21]) == "DM"
  {
    assert SlashExample[18..21] == " DM";
    assert SpacesEnd(" DM", 0) == 1;
    assert LStrip(" DM") == "DM";
    assert SpacesStart("DM", 2) == 2;
  }

  lemma SlashExampleSection()
    ensures AssessmentPlanSection(SlashExample, []) == Some("DM")
  {
    SlashExampleHeading();
    SlashExampleEnd();
    SlashExampleStrip();
    var p := TierTest(SlashExample, SlashPlan);
    assert p(0);
    assert FirstWhere(p, 0, |SlashExample| + 1) == Some(0);
  }

  // ---------------------------------------------------------------------------
  // extract_condition_blocks
  // ---------------------------------------------------------------------------

  /** `extract_condition_blocks`: the groups of the "N." pattern of line 58,
      stripped, blank ones dropped. */
  function ConditionBlocks(ap: string): seq<string> {
    FilterMap(NoteLoader.NumberedBlocks(ap, 0, NoteLoader.Dot), NoteLoader.KeepStripped(), NoteLoader.Stripped())
  }

  /** No group is dropped (each starts with a digit, which strip() keeps),
      so the result is the groups one for one: the k-th block is the k-th
      group stripped, that group runs from the first digit of an "N." entry
      opening a line to where the next such entry opens on a new line or the
      text ends, and the block is non-empty, stripped and starts with its
      item number. */
  lemma ConditionBlocksMeaning(ap: string)
    ensures var groups := NoteLoader.NumberedBlocks(ap, 0, NoteLoader.Dot);
      ConditionBlocks(ap) == Map(groups, NoteLoader.Stripped()) &&
      forall k :: 0 <= k < |groups| ==>
        (var b := ConditionBlocks(ap)[k];
         NoteLoader.EntryBlock(ap, NoteLoader.Dot, 0, groups[k]) && b == Strip(groups[k]) &&
         b != [] && Strip(b) == b && IsDigit(b[0]) && b[0] == groups[k][0])
  {
    var groups := NoteLoader.NumberedBlocks(ap, 0, NoteLoader.Dot);
    forall k | 0 <= k < |groups| ensures NoteLoader.KeepStripped()(groups[k]) {
      KeptByStrip(groups[k], 0);
    }
    FilterMapAll(groups, NoteLoader.KeepStripped(), NoteLoader.Stripped());
    assert NoteLoader.EntryBlocks(ap, NoteLoader.Dot, 0, groups);
    forall k | 0 <= k < |groups|
      ensures var b := ConditionBlocks(ap)[k];
        NoteLoader.EntryBlock(ap, NoteLoader.Dot, 0, groups[k]) && b == Strip(groups[k]) &&
        b != [] && Strip(b) == b && IsDigit(b[0]) && b[0] == groups[k][0]
    {
      MapAt(groups, NoteLoader.Stripped(), k);
      var g := groups[k];
      assert NoteLoader.EntryBlock(ap, NoteLoader.Dot, 0, g);
      KeptByStrip(g, 0);
      StripProperties(g);
      LStripIdentity(g);
      assert Strip(g)[0] == g[0];
    }
  }

  /** The application's splitter is the note loader's first pattern alone:
      whenever that pattern wins the loader's count, both return the same
      blocks. */
  lemma AgreesWithLoader(ap: string)
    requires var b1, b2, b3 := NoteLoader.NumberedBlocks(ap, 0, NoteLoader.Dot),
      NoteLoader.NumberedBlocks(ap, 0, NoteLoader.Paren), NoteLoader.NumberedBlocks(ap, 0, NoteLoader.Dash);
      b1 != [] && |b1| >= |b2| && |b1| >= |b3|
    ensures ConditionBlocks(ap) == NoteLoader.ConditionBlocks(ap)
  {
  }
}
