/** The regex helpers of utils/regex/regex_utils.py: the assessment-and-plan
    locator, the splitter that cuts the plan into numbered entries, and the
    ICD-10 matcher. */
module RegexUtils {
  import opened Wrappers
  import opened Text
  import opened Lists
  import opened Icd10

  // ---------------------------------------------------------------------------
  // extract_assessment_plan
  // ---------------------------------------------------------------------------

  const PlanHeading := "Assessment / Plan"
  /** The literal that opens the pattern of line 22. */
  const PlanOpening := "Assessment / Plan\n\n"
  /** The first lookahead alternative of the pattern of line 22. */
  const ReturnMarker := "\n\nReturn to Office"

  const ErrorPrefix := "Error occurred: "
  /** `f"Error occurred: {str(e)}"` for the three exceptions the function raises
      itself (lines 19, 43 and 51). */
  const NotAStringError := ErrorPrefix + "Input text must be a string"
  const NotFoundError := ErrorPrefix + "\"Assessment / Plan\" section not found in the text"
  const OutOfBoundsError := ErrorPrefix + "Start index for assessment plan extraction is out of bounds"

  /** `j` is where the search of line 25 matches the opening literal, and `e`
      where the lazy group ends: the first occurrence of the opening, and after
      it the first place where "\n\nReturn to Office" starts, or the end of the
      text (`\Z`), whichever comes first. */
  ghost predicate PrimarySpan(text: string, j: nat, e: nat) {
    IsAt(text, PlanOpening, j) && (forall k :: 0 <= k < j ==> !IsAt(text, PlanOpening, k)) &&
    j + |PlanOpening| <= e <= |text| &&
    (e == |text| || IsAt(text, ReturnMarker, e)) &&
    (forall k :: j + |PlanOpening| <= k < e ==> !IsAt(text, ReturnMarker, k))
  }

  /** `re.search(r"Assessment / Plan\n\n(.*?)(?=\n\nReturn to Office|\Z)",
      text, re.DOTALL).group(1)`, or `None` when the search fails. `.` matches
      every character under DOTALL and `\Z` always matches at the end, so the
      search succeeds exactly when the opening literal occurs. */
  function PrimaryPlan(text: string): (r: Option<string>)
    ensures r.None? <==> forall j :: 0 <= j ==> !IsAt(text, PlanOpening, j)
    ensures r.Some? ==> exists j: nat, e: nat :: PrimarySpan(text, j, e) && r.value == text[j + |PlanOpening|..e]
  {
    match FindFrom(text, PlanOpening, 0)
    case None => None
    case Some(j) =>
      var b := j + |PlanOpening|;
      var e := match FindFrom(text, ReturnMarker, b) case None => |text| case Some(e) => e;
      assert PrimarySpan(text, j, e);
      Some(text[b..e])
  }

  /** `plan` sits in `text` right after the opening literal, and the text goes
      on at the end of the plan either with "\n\nReturn to Office" or not at
      all. */
  ghost predicate PlanInText(text: string, plan: string) {
    exists pre, post ::
      text == pre + PlanOpening + plan + post &&
      (post == [] || (|post| >= |ReturnMarker| && post[..|ReturnMarker|] == ReturnMarker))
  }

  /** The plan found by the primary rule sits in the text as the pattern reads. */
  lemma PrimaryPlanRoundTrip(text: string)
    requires PrimaryPlan(text).Some?
    ensures PlanInText(text, PrimaryPlan(text).value)
  {
    var j: nat, e: nat :| PrimarySpan(text, j, e) && PrimaryPlan(text).value == text[j + |PlanOpening|..e];
    SpanRoundTrip(text, PrimaryPlan(text).value, j, e);
  }

  lemma SpanRoundTrip(text: string, plan: string, j: nat, e: nat)
    requires PrimarySpan(text, j, e) && plan == text[j + |PlanOpening|..e]
    ensures PlanInText(text, plan)
  {
    CutAround(text, PlanOpening, ReturnMarker, j, e);
    var pre, post := text[..j], text[e..];
    assert text == pre + PlanOpening + plan + post;
  }

  /** A line that the fallback loop of lines 36-39 stops at. */
  predicate HasHeading(line: string) {
    Contains(line, PlanHeading)
  }

  function HeadingTest(lines: seq<string>): nat -> bool {
    (k: nat) => k < |lines| && HasHeading(lines[k])
  }

  /** The index of the first line containing "Assessment / Plan". */
  function FirstHeadingLine(lines: seq<string>): (r: Option<nat>)
    ensures r.Some? ==> r.value < |lines| && HasHeading(lines[r.value])
    ensures r.Some? ==> forall k :: 0 <= k < r.value ==> !HasHeading(lines[k])
    ensures r.None? ==> forall k :: 0 <= k < |lines| ==> !HasHeading(lines[k])
  {
    var p := HeadingTest(lines);
    assert forall k: nat :: p(k) == (k < |lines| && HasHeading(lines[k]));
    FirstWhere(p, 0, |lines|)
  }

  /** `extract_assessment_plan`: every failure inside the `try` is caught and
      turned into "Error occurred: " followed by the exception's message. */
  function AssessmentPlan(text: PyArg): string {
    match text
    case PyNonStr => NotAStringError
    case PyStr(t) =>
      match PrimaryPlan(t)
      case Some(plan) => plan
      case None =>
        var lines := Split(t, '\n');
        match FirstHeadingLine(lines)
        case None => NotFoundError
        case Some(i) =>
          if i + 1 >= |lines| then OutOfBoundsError
          else Join(lines[i + 1..], "\n")
  }

  /** The search loop of lines 36-39, which stops at the first match. */
  method FindHeadingLine(lines: seq<string>) returns (idx: Option<nat>)
    ensures idx == FirstHeadingLine(lines)
  {
    idx := None;
    var i := 0;
    while i < |lines|
      invariant 0 <= i <= |lines|
      invariant forall k :: 0 <= k < i ==> !HasHeading(lines[k])
    {
      if Contains(lines[i], PlanHeading) {
        idx := Some(i);
        break;
      }
      i := i + 1;
    }
  }

  method ExtractAssessmentPlan(text: PyArg) returns (result: string)
    ensures result == AssessmentPlan(text)
  {
    if text.PyNonStr? {
      return NotAStringError;
    }
    var t := text.text;
    var primary := PrimaryPlan(t);
    if primary.Some? {
      return primary.value;
    }
    var lines := Split(t, '\n');
    var idx := FindHeadingLine(lines);
    if idx.None? {
      return NotFoundError;
    }
    var startIndex := idx.value + 1;
    var endIndex := |lines|;
    if startIndex >= endIndex {
      return OutOfBoundsError;
    }
    assert lines[startIndex..endIndex] == lines[startIndex..];
    result := Join(lines[startIndex..endIndex], "\n");
  }

  /** When the opening literal occurs, the result is the primary rule's plan. */
  lemma AssessmentPlanPrimary(t: string, j: nat)
    requires IsAt(t, PlanOpening, j)
    ensures exists j0: nat, e: nat :: PrimarySpan(t, j0, e) && AssessmentPlan(PyStr(t)) == t[j0 + |PlanOpening|..e]
  {
    var r := PrimaryPlan(t);
    assert r.Some?;
    var j0: nat, e: nat :| PrimarySpan(t, j0, e) && r.value == t[j0 + |PlanOpening|..e];
    assert AssessmentPlan(PyStr(t)) == t[j0 + |PlanOpening|..e];
  }

  /** Otherwise the result is every line after the first line holding the
      heading, and splitting it at "\n" gives back exactly those lines. */
  lemma AssessmentPlanFallback(t: string, i: nat)
    requires PrimaryPlan(t).None?
    requires i + 1 < |Split(t, '\n')| && HasHeading(Split(t, '\n')[i])
    requires forall k :: 0 <= k < i ==> !HasHeading(Split(t, '\n')[k])
    ensures AssessmentPlan(PyStr(t)) == Join(Split(t, '\n')[i + 1..], "\n")
    ensures Split(AssessmentPlan(PyStr(t)), '\n') == Split(t, '\n')[i + 1..]
  {
    var lines := Split(t, '\n');
    FirstHeadingAt(lines, i);
    SplitPiecesFree(t, '\n');
    RejoinSuffix(lines, i + 1);
  }

  /** A heading line with none before it is the one the fallback takes. */
  lemma FirstHeadingAt(lines: seq<string>, i: nat)
    requires i < |lines| && HasHeading(lines[i])
    requires forall k :: 0 <= k < i ==> !HasHeading(lines[k])
    ensures FirstHeadingLine(lines) == Some(i)
  {
  }

  /** Lines without a line break, joined from `k` on and split again. */
  lemma RejoinSuffix(lines: seq<string>, k: nat)
    requires k < |lines|
    requires forall j :: 0 <= j < |lines| ==> '\n' !in lines[j]
    ensures Split(Join(lines[k..], "\n"), '\n') == lines[k..]
  {
    SuffixAt(lines, k);
    SplitJoin(lines[k..], '\n');
  }

  /** The function never fails: a non-string, a text without the heading and a
      heading on the last line each give an error string. */
  lemma AssessmentPlanErrors(text: PyArg)
    ensures text.PyNonStr? ==> AssessmentPlan(text) == NotAStringError
    ensures (text.PyStr? && PrimaryPlan(text.text).None? &&
             (forall k :: 0 <= k < |Split(text.text, '\n')| ==> !HasHeading(Split(text.text, '\n')[k]))) ==>
      AssessmentPlan(text) == NotFoundError
    ensures (text.PyStr? && PrimaryPlan(text.text).None? &&
             HasHeading(Split(text.text, '\n')[|Split(text.text, '\n')| - 1]) &&
             (forall k :: 0 <= k < |Split(text.text, '\n')| - 1 ==> !HasHeading(Split(text.text, '\n')[k]))) ==>
      AssessmentPlan(text) == OutOfBoundsError
  {
  }

  /** All three error strings start with "Error occurred: ". */
  lemma ErrorStringsArePrefixed()
    ensures NotAStringError[..|ErrorPrefix|] == ErrorPrefix
    ensures NotFoundError[..|ErrorPrefix|] == ErrorPrefix
    ensures OutOfBoundsError[..|ErrorPrefix|] == ErrorPrefix
  {
  }

  // ---------------------------------------------------------------------------
  // extract_each_plan
  // ---------------------------------------------------------------------------

  function LStripped(): string -> string {
    (line: string) => LStrip(line)
  }

  /** `if line.strip()`: the line is not blank. */
  function NonBlankTest(): string -> bool {
    (line: string) => !IsBlank(line)
  }

  function Same(): string -> string {
    (line: string) => line
  }

  /** Line 64: every line left-stripped, re-joined with "\n". */
  function LeftStripped(text: string): string {
    Join(Map(SplitLines(text), LStripped()), "\n")
  }

  /** Line 67: the blank lines dropped, re-joined with "\n". */
  function WithoutBlankLines(text: string): string {
    Join(FilterMap(SplitLines(text), NonBlankTest(), Same()), "\n")
  }

  /** Line 71: the lines the splitter works on. */
  function PlanLines(text: string): seq<string> {
    SplitLines(WithoutBlankLines(LeftStripped(text)))
  }

  /** A line of the normalised text: not empty, not starting with white space
      (so left-stripped and not blank), and without line boundaries. */
  predicate IsPlanLine(line: string) {
    line != [] && !IsSpace(line[0]) && NoLineBoundary(line)
  }

  /** `re.match(r"(^(\s?\d+)\.\s)|(^(\s\d+)\)\s)", line)`. In the first
      alternative `\s?` takes a leading white-space character when there is one
      (giving it back cannot help, because `\d+` cannot then start on white
      space), and the greedy `\d+` cannot give a digit back to `\.`; the second
      alternative needs exactly one leading white-space character. */
  predicate IsPlanStart(line: string) {
    var i := if |line| > 0 && IsSpace(line[0]) then 1 else 0;
    var d := DigitsEnd(line, i);
    (d > i && d + 1 < |line| && line[d] == '.' && IsSpace(line[d + 1])) ||
    (i == 1 && d > 1 && d + 1 < |line| && line[d] == ')' && IsSpace(line[d + 1]))
  }

  function PlanStartTest(): string -> bool {
    (line: string) => IsPlanStart(line)
  }

  /** The indices of the lines that open an entry, in order (lines 75-77). */
  function Starts(lines: seq<string>): seq<nat> {
    IndicesWhere(lines, PlanStartTest(), |lines|)
  }

  /** Start indices that can cut `lines` into entries. */
  predicate ValidStarts(lines: seq<string>, starts: seq<nat>) {
    (forall k :: 0 <= k < |starts| ==> starts[k] < |lines|) &&
    (forall k, l :: 0 <= k < l < |starts| ==> starts[k] < starts[l])
  }

  /** Where entry `k` ends: at the next start, or after the last line. */
  function BlockEnd(lines: seq<string>, starts: seq<nat>, k: nat): (e: nat)
    requires ValidStarts(lines, starts) && k < |starts|
    ensures starts[k] < e <= |lines|
  {
    if k + 1 < |starts| then starts[k + 1] else |lines|
  }

  /** The lines of entry `k`. */
  function BlockLines(lines: seq<string>, starts: seq<nat>, k: nat): seq<string>
    requires ValidStarts(lines, starts) && k < |starts|
  {
    lines[starts[k]..BlockEnd(lines, starts, k)]
  }

  function Blocks(lines: seq<string>, starts: seq<nat>): (r: seq<string>)
    requires ValidStarts(lines, starts)
  {
    seq(|starts|, k requires 0 <= k < |starts| => Join(BlockLines(lines, starts, k), "\n"))
  }

  /** `extract_each_plan`. */
  function EachPlan(text: string): seq<string> {
    var lines := PlanLines(text);
    Blocks(lines, Starts(lines))
  }

  /** The loop of lines 75-77: the indices of the lines that open an entry. */
  method CollectStarts(lines: seq<string>) returns (startIdx: seq<nat>)
    ensures startIdx == Starts(lines)
  {
    startIdx := [];
    var index := 0;
    while index < |lines|
      invariant 0 <= index <= |lines|
      invariant startIdx == IndicesWhere(lines, PlanStartTest(), index)
    {
      if IsPlanStart(lines[index]) {
        startIdx := startIdx + [index];
      }
      index := index + 1;
    }
  }

  /** The loop of lines 81-87. An index equal to the last start index is the
      last one, because the indices increase. */
  method CutBlocks(lines: seq<string>, startIdx: seq<nat>) returns (section: seq<string>)
    requires ValidStarts(lines, startIdx)
    ensures section == Blocks(lines, startIdx)
  {
    section := [];
    var i := 0;
    while i < |startIdx|
      invariant 0 <= i <= |startIdx|
      invariant |section| == i
      invariant forall k :: 0 <= k < i ==> section[k] == Join(BlockLines(lines, startIdx, k), "\n")
    {
      var e := startIdx[i];
      if e != startIdx[|startIdx| - 1] {
        section := section + [Join(lines[e..startIdx[i + 1]], "\n")];
      } else {
        assert i == |startIdx| - 1;
        assert lines[e..] == BlockLines(lines, startIdx, i);
        section := section + [Join(lines[e..], "\n")];
      }
      i := i + 1;
    }
  }

  /** `extract_each_plan` (lines 61-90). */
  method ExtractEachPlan(inputText: string) returns (section: seq<string>)
    ensures section == EachPlan(inputText)
  {
    var text := LeftStripped(inputText);
    text := WithoutBlankLines(text);
    var lines := SplitLines(text);
    var startIdx := CollectStarts(lines);
    section := CutBlocks(lines, startIdx);
  }

  /** A left-stripped line still has no line boundary and does not start with
      white space. */
  lemma LStripShape(line: string)
    requires NoLineBoundary(line)
    ensures NoLineBoundary(LStrip(line))
    ensures LStrip(line) == [] || !IsSpace(LStrip(line)[0])
  {
    var k := SpacesEnd(line, 0);
    assert forall j :: 0 <= j < |LStrip(line)| ==> LStrip(line)[j] == line[k + j];
  }

  /** The shape of a line after line 64: no line boundary, and no leading
      white space. */
  predicate IsStrippedLine(line: string) {
    NoLineBoundary(line) && (line == [] || !IsSpace(line[0]))
  }

  lemma StrippedLines(raw: seq<string>)
    requires forall k :: 0 <= k < |raw| ==> NoLineBoundary(raw[k])
    ensures forall k :: 0 <= k < |raw| ==> IsStrippedLine(Map(raw, LStripped())[k])
  {
    var a := Map(raw, LStripped());
    forall k | 0 <= k < |a|
      ensures IsStrippedLine(a[k])
    {
      MapAt(raw, LStripped(), k);
      LStripShape(raw[k]);
    }
  }

  /** Re-splitting the joined lines loses at most an empty last line, which
      the blank-line filter drops anyway. */
  lemma FilterAfterResplit(a: seq<string>, keep: string -> bool, f: string -> string)
    requires forall k :: 0 <= k < |a| ==> NoLineBoundary(a[k])
    requires !keep([])
    ensures FilterMap(SplitLines(Join(a, "\n")), keep, f) == FilterMap(a, keep, f)
  {
    SplitLinesJoin(a);
    if a != [] && a[|a| - 1] == [] {
      FilterMapDropLast(a, keep, f);
    }
  }

  /** The non-blank stripped lines are plan lines. */
  lemma FilteredArePlanLines(a: seq<string>)
    requires forall k :: 0 <= k < |a| ==> IsStrippedLine(a[k])
    ensures var f := FilterMap(a, NonBlankTest(), Same());
      forall k :: 0 <= k < |f| ==> IsPlanLine(f[k])
  {
    var f := FilterMap(a, NonBlankTest(), Same());
    FilterMapFrom(a, NonBlankTest(), Same());
    forall k | 0 <= k < |f|
      ensures IsPlanLine(f[k])
    {
      assert f[k] in f;
      var m :| 0 <= m < |a| && NonBlankTest()(a[m]) && f[k] == Same()(a[m]);
      assert IsStrippedLine(a[m]);
    }
  }

  /** Plan lines survive joining and splitting at line boundaries. */
  lemma ResplitPlanLines(f: seq<string>)
    requires forall k :: 0 <= k < |f| ==> IsPlanLine(f[k])
    ensures SplitLines(Join(f, "\n")) == f
  {
    SplitLinesJoin(f);
  }

  /** Lines 64-71 turn the text into its lines, left-stripped, without the blank
      ones, in order; each of them is a plan line. */
  lemma PlanLinesMeaning(text: string)
    ensures PlanLines(text) == FilterMap(Map(SplitLines(text), LStripped()), NonBlankTest(), Same())
    ensures forall k :: 0 <= k < |PlanLines(text)| ==> IsPlanLine(PlanLines(text)[k])
  {
    var raw := SplitLines(text);
    var a := Map(raw, LStripped());
    StrippedLines(raw);
    assert forall k :: 0 <= k < |a| ==> IsStrippedLine(a[k]);
    assert !NonBlankTest()([]);
    FilterAfterResplit(a, NonBlankTest(), Same());
    FilteredArePlanLines(a);
    ResplitPlanLines(FilterMap(a, NonBlankTest(), Same()));
  }

  /** On a line that does not start with white space (every plan line), the
      ')' alternative never matches, and a start line is digits, '.', then a
      white-space character. */
  lemma PlanStartOfStrippedLine(line: string)
    requires line == [] || !IsSpace(line[0])
    ensures IsPlanStart(line) <==>
      var d := DigitsEnd(line, 0); d > 0 && d + 1 < |line| && line[d] == '.' && IsSpace(line[d + 1])
  {
  }

  /** Entry `k` re-splits at "\n" into its lines; the first opens an entry and
      no other one does. */
  lemma BlockShape(lines: seq<string>, k: nat)
    requires forall m :: 0 <= m < |lines| ==> '\n' !in lines[m]
    requires k < |Starts(lines)|
    ensures var starts := Starts(lines); var block := BlockLines(lines, starts, k);
      Split(Blocks(lines, starts)[k], '\n') == block &&
      PlanStartTest()(block[0]) &&
      (forall m :: 0 < m < |block| ==> !PlanStartTest()(block[m]))
  {
    var starts := Starts(lines);
    BlockResplit(lines, starts, k);
    BlockOpensOnce(lines, starts, k, PlanStartTest());
  }

  /** An entry joined at "\n" splits back into its lines. */
  lemma BlockResplit(lines: seq<string>, starts: seq<nat>, k: nat)
    requires forall m :: 0 <= m < |lines| ==> '\n' !in lines[m]
    requires ValidStarts(lines, starts) && k < |starts|
    ensures Split(Blocks(lines, starts)[k], '\n') == BlockLines(lines, starts, k)
  {
    var block := BlockLines(lines, starts, k);
    assert forall m :: 0 <= m < |block| ==> block[m] == lines[starts[k] + m];
    SplitJoin(block, '\n');
  }

  /** When the starts are exactly the lines satisfying `p`, an entry's first
      line satisfies `p` and no other line of it does. */
  lemma BlockOpensOnce(lines: seq<string>, starts: seq<nat>, k: nat, p: string -> bool)
    requires ValidStarts(lines, starts) && k < |starts|
    requires forall l :: 0 <= l < |starts| ==> p(lines[starts[l]])
    requires forall j :: 0 <= j < |lines| && p(lines[j]) ==> j in starts
    ensures var block := BlockLines(lines, starts, k);
      p(block[0]) && forall m :: 0 < m < |block| ==> !p(block[m])
  {
    var block := BlockLines(lines, starts, k);
    assert block[0] == lines[starts[k]];
    forall m | 0 < m < |block|
      ensures !p(block[m])
    {
      var j := starts[k] + m;
      assert block[m] == lines[j];
      forall l | 0 <= l < |starts|
        ensures starts[l] != j
      {
        if l < k {
          assert starts[l] < starts[k];
        } else if l > k + 1 {
          assert starts[k + 1] < starts[l];
        }
      }
      assert j !in starts;
    }
  }

  /** Entry `k` of `extract_each_plan` re-splits at "\n" into its lines: plan
      lines (left-stripped and not blank), the first one a start line and no
      other one. */
  lemma EachPlanBlock(text: string, k: nat)
    requires k < |Starts(PlanLines(text))|
    ensures var lines := PlanLines(text); var block := BlockLines(lines, Starts(lines), k);
      Split(EachPlan(text)[k], '\n') == block &&
      IsPlanStart(block[0]) &&
      (forall m :: 0 < m < |block| ==> !IsPlanStart(block[m])) &&
      (forall m :: 0 <= m < |block| ==> IsPlanLine(block[m]))
  {
    var lines := PlanLines(text);
    PlanLinesMeaning(text);
    BlockOfPlanLines(lines, k);
  }

  /** `EachPlanBlock` for any plan lines. */
  lemma BlockOfPlanLines(lines: seq<string>, k: nat)
    requires forall m :: 0 <= m < |lines| ==> IsPlanLine(lines[m])
    requires k < |Starts(lines)|
    ensures var block := BlockLines(lines, Starts(lines), k);
      Split(Blocks(lines, Starts(lines))[k], '\n') == block &&
      IsPlanStart(block[0]) &&
      (forall m :: 0 < m < |block| ==> !IsPlanStart(block[m])) &&
      (forall m :: 0 <= m < |block| ==> IsPlanLine(block[m]))
  {
    var starts := Starts(lines);
    var block := BlockLines(lines, starts, k);
    forall m | 0 <= m < |lines|
      ensures '\n' !in lines[m]
    {
      NoNewline(lines[m]);
    }
    BlockShape(lines, k);
    assert forall x :: PlanStartTest()(x) == IsPlanStart(x);
    assert forall m :: 0 <= m < |block| ==> block[m] == lines[starts[k] + m];
  }

  /** There are exactly as many entries as start lines; with no start line there
      are none. */
  lemma EachPlanCount(text: string)
    ensures var lines := PlanLines(text);
      |EachPlan(text)| == |Starts(lines)| &&
      (EachPlan(text) == [] <==> forall j :: 0 <= j < |lines| ==> !IsPlanStart(lines[j]))
  {
    var lines := PlanLines(text);
    var starts := Starts(lines);
    if starts != [] {
      assert PlanStartTest()(lines[starts[0]]);
    }
    forall j | 0 <= j < |lines| && IsPlanStart(lines[j])
      ensures starts != []
    {
      assert PlanStartTest()(lines[j]);
      assert j in starts;
    }
  }

  /** The entries from `k` on, joined with "\n", are the lines from entry `k`'s
      start on, joined with "\n". */
  lemma {:induction false} JoinBlocksFrom(lines: seq<string>, starts: seq<nat>, k: nat)
    requires ValidStarts(lines, starts) && k < |starts|
    ensures Join(Blocks(lines, starts)[k..], "\n") == Join(lines[starts[k]..], "\n")
    decreases |starts| - k
  {
    var bs := Blocks(lines, starts);
    if k + 1 == |starts| {
      assert bs[k..] == [bs[k]];
      assert BlockLines(lines, starts, k) == lines[starts[k]..];
    } else {
      JoinBlocksFrom(lines, starts, k + 1);
      assert bs[k..] == [bs[k]] + bs[k + 1..];
      JoinCons(bs[k], bs[k + 1..], "\n");
      var here := lines[starts[k]..starts[k + 1]];
      assert lines[starts[k]..] == here + lines[starts[k + 1]..];
      JoinAppend(here, lines[starts[k + 1]..], "\n");
    }
  }

  /** The entries partition the plan lines from the first start line on: joined
      with "\n" they give exactly those lines joined with "\n", so the lines
      before the first start line are the only ones dropped. */
  lemma EachPlanJoin(text: string)
    requires Starts(PlanLines(text)) != []
    ensures var lines := PlanLines(text);
      Join(EachPlan(text), "\n") == Join(lines[Starts(lines)[0]..], "\n")
  {
    var lines := PlanLines(text);
    JoinBlocksFrom(lines, Starts(lines), 0);
    assert EachPlan(text)[0..] == EachPlan(text);
  }

  lemma EachPlanOfEmpty()
    ensures EachPlan("") == []
  {
    assert PlanLines("") == [];
  }

  /** Plan lines already are the normal form: joined with "\n" and normalised
      again, they come back unchanged. */
  lemma PlanLinesOfPlanLines(rest: seq<string>)
    requires forall m :: 0 <= m < |rest| ==> IsPlanLine(rest[m])
    ensures PlanLines(Join(rest, "\n")) == rest
  {
    var t := Join(rest, "\n");
    ResplitPlanLines(rest);
    forall m | 0 <= m < |rest|
      ensures LStripped()(rest[m]) == rest[m] && NonBlankTest()(rest[m]) && Same()(rest[m]) == rest[m]
    {
      LStripIdentity(rest[m]);
    }
    MapFixed(rest, LStripped());
    assert LeftStripped(t) == t;
    FilterMapAll(rest, NonBlankTest(), Same());
    MapFixed(rest, Same());
    assert WithoutBlankLines(t) == t;
  }

  lemma SliceOfSuffix<T>(xs: seq<T>, s0: nat, a: nat, b: nat)
    requires s0 <= a <= b <= |xs|
    ensures xs[s0..][a - s0..b - s0] == xs[a..b]
  {
  }

  /** Cutting the lines from the first start line on gives the same entries as
      cutting all the lines. */
  lemma BlocksFromFirstStart(lines: seq<string>)
    requires Starts(lines) != []
    ensures var rest := lines[Starts(lines)[0]..]; Blocks(rest, Starts(rest)) == Blocks(lines, Starts(lines))
  {
    var starts := Starts(lines);
    var s0 := starts[0];
    var rest := lines[s0..];
    StartsOfRest(lines);
    BlocksShift(lines, starts, Starts(rest), s0);
  }

  /** The starts of the lines from the first start on are the starts, each
      lowered by the first. */
  lemma StartsOfRest(lines: seq<string>)
    requires Starts(lines) != []
    ensures var s0 := Starts(lines)[0]; var r := Starts(lines[s0..]);
      |r| == |Starts(lines)| && forall l :: 0 <= l < |r| ==> r[l] + s0 == Starts(lines)[l]
  {
    var s0 := Starts(lines)[0];
    IndicesShift(lines, PlanStartTest(), s0);
    assert IndicesWhere(lines[s0..], PlanStartTest(), |lines| - s0) == Starts(lines[s0..]);
  }

  /** Entries cut from a suffix with correspondingly lowered starts are the
      same entries. */
  lemma BlocksShift(lines: seq<string>, starts: seq<nat>, r: seq<nat>, s0: nat)
    requires s0 <= |lines| && ValidStarts(lines, starts) && ValidStarts(lines[s0..], r)
    requires |r| == |starts| && forall l :: 0 <= l < |r| ==> r[l] + s0 == starts[l]
    ensures Blocks(lines[s0..], r) == Blocks(lines, starts)
  {
    forall k | 0 <= k < |starts|
      ensures BlockLines(lines[s0..], r, k) == BlockLines(lines, starts, k)
    {
      BlockShift(lines, starts, r, s0, k);
    }
  }

  /** An entry cut from a suffix of the lines with correspondingly lowered
      start indices is the same entry. */
  lemma BlockShift(lines: seq<string>, starts: seq<nat>, r: seq<nat>, s0: nat, k: nat)
    requires s0 <= |lines| && ValidStarts(lines, starts) && ValidStarts(lines[s0..], r)
    requires |r| == |starts| && forall l :: 0 <= l < |r| ==> r[l] + s0 == starts[l]
    requires k < |starts|
    ensures BlockLines(lines[s0..], r, k) == BlockLines(lines, starts, k)
  {
    var e := BlockEnd(lines, starts, k);
    var e2 := BlockEnd(lines[s0..], r, k);
    assert e2 + s0 == e;
    SliceOfSuffix(lines, s0, starts[k], e);
  }

  /** Splitting the joined entries again gives the same entries. */
  lemma EachPlanIdempotent(text: string)
    ensures EachPlan(Join(EachPlan(text), "\n")) == EachPlan(text)
  {
    var lines := PlanLines(text);
    var starts := Starts(lines);
    if starts == [] {
      assert EachPlan(text) == [];
      EachPlanOfEmpty();
    } else {
      var rest := lines[starts[0]..];
      EachPlanJoin(text);
      PlanLinesMeaning(text);
      SuffixAt(lines, starts[0]);
      PlanLinesOfPlanLines(rest);
      BlocksFromFirstStart(lines);
    }
  }

  // ---------------------------------------------------------------------------
  // match_icd10_codes
  // ---------------------------------------------------------------------------

  const NoCodesMessage := "There were no icd10 codes found in the provided text"

  /** `match_icd10_codes` as written (lines 92-114): after the type guard, line
      109 tests `matches` before line 110 assigns it, so the call fails with
      UnboundLocalError on every string. */
  function MatchIcd10CodesAsWritten(text: PyArg): Outcome<seq<string>> {
    match text
    case PyNonStr => Raises("TypeError", "Input must be a string.")
    case PyStr(_) => Raises("UnboundLocalError", "cannot access local variable 'matches' where it is not associated with a value")
  }

  /** The function as written never returns, not even on the COPD entry whose
      code "J44.9" the module's test expects. */
  lemma MatchIcd10CodesAsWrittenFails(text: PyArg)
    ensures MatchIcd10CodesAsWritten(text).Raises?
    ensures MatchIcd10CodesAsWritten(PyStr(CopdExcerpt)).kind == "UnboundLocalError"
  {
  }

  /** The evident intent: `matches = re.findall(pattern, text)` first, then the
      list of matches, or TypeError when there are none. */
  function MatchIcd10Codes(text: PyArg): Outcome<seq<string>> {
    match text
    case PyNonStr => Raises("TypeError", "Input must be a string.")
    case PyStr(t) =>
      var matches := FindAllCodes(t, 0);
      if matches != [] then Returns(matches) else Raises("TypeError", NoCodesMessage)
  }

  /** The corrected function returns, for a string with a match, every match
      in text order, each an ICD-10 code occurring in the text, the first one
      at the leftmost position where a match starts; it raises exactly for a
      non-string and for a string where the pattern matches nowhere. */
  lemma MatchIcd10CodesMeaning(text: PyArg)
    ensures MatchIcd10Codes(text).Raises? <==>
      (text.PyNonStr? || forall j :: 0 <= j <= |text.text| ==> CodeAt(text.text, j).None?)
    ensures MatchIcd10Codes(text).Returns? ==>
      var t := text.text; var ms := MatchIcd10Codes(text).value;
      ms != [] && (forall k :: 0 <= k < |ms| ==> IsIcd10Code(ms[k]) && Occurs(t, ms[k])) &&
      var j := FirstMatchFrom(t, 0).value; ms[0] == t[j..CodeAt(t, j).value]
  {
    if text.PyStr? {
      FindAllFirst(text.text, 0);
    }
  }

  /** On the COPD excerpt the corrected function yields "J44.9" first. */
  lemma MatchIcd10CodesExample()
    ensures MatchIcd10Codes(PyStr(CopdExcerpt)).Returns?
    ensures MatchIcd10Codes(PyStr(CopdExcerpt)).value[0] == "J44.9"
  {
    CopdExample();
  }
}
