/** `extract_assessment_plan` of test2.py, which utils/extras/test2.py repeats
    line for line: the primary rule of the regex helpers, then a fallback that
    takes the LAST line holding the heading and has no error handling. */
module Test2 {
  import opened Wrappers
  import opened Text
  import opened RegexUtils
  import opened Lists

  /** The message Python gives for `None + 1`. */
  const NonePlusOneError := "unsupported operand type(s) for +: 'NoneType' and 'int'"

  /** The index of the last of the first `n` lines that holds the heading. */
  function LastHeadingLine(lines: seq<string>, n: nat): (r: Option<nat>)
    requires n <= |lines|
    ensures r.Some? ==> r.value < n && HasHeading(lines[r.value])
    ensures r.Some? ==> forall k :: r.value < k < n ==> !HasHeading(lines[k])
    ensures r.None? ==> forall k :: 0 <= k < n ==> !HasHeading(lines[k])
  {
    if n == 0 then None
    else if HasHeading(lines[n - 1]) then Some(n - 1)
    else LastHeadingLine(lines, n - 1)
  }

  /** A heading line with none after it is the one the loop keeps. */
  lemma LastHeadingAt(lines: seq<string>, i: nat)
    requires i < |lines| && HasHeading(lines[i])
    requires forall k :: i < k < |lines| ==> !HasHeading(lines[k])
    ensures LastHeadingLine(lines, |lines|) == Some(i)
  {
  }

  predicate NoHeadingLine(lines: seq<string>) {
    forall k :: 0 <= k < |lines| ==> !HasHeading(lines[k])
  }

  /** What the function returns, or the exception it lets escape. */
  function AssessmentPlanLast(text: string): Outcome<string> {
    match PrimaryPlan(text)
    case Some(plan) => Returns(plan)
    case None =>
      var lines := Split(text, '\n');
      match LastHeadingLine(lines, |lines|)
      case None => Raises("TypeError", NonePlusOneError)
      case Some(i) => Returns(Join(lines[i + 1..], "\n"))
  }

  /** The loop of lines 21-23: it runs over every line and overwrites the
      index at each line holding the heading. */
  method FindLastHeadingLine(lines: seq<string>) returns (idx: Option<nat>)
    ensures idx == LastHeadingLine(lines, |lines|)
  {
    idx := None;
    var i := 0;
    while i < |lines|
      invariant 0 <= i <= |lines|
      invariant idx == LastHeadingLine(lines, i)
    {
      if Contains(lines[i], PlanHeading) {
        idx := Some(i);
      }
      i := i + 1;
    }
  }

  method ExtractAssessmentPlan(text: string) returns (result: Outcome<string>)
    ensures result == AssessmentPlanLast(text)
  {
    var primary := PrimaryPlan(text);
    if primary.Some? {
      return Returns(primary.value);
    }
    var lines := Split(text, '\n');
    var idx := FindLastHeadingLine(lines);
    if idx.None? {
      return Raises("TypeError", NonePlusOneError);
    }
    var startIndex := idx.value + 1;
    var endIndex := |lines|;
    assert lines[startIndex..endIndex] == lines[startIndex..];
    result := Returns(Join(lines[startIndex..endIndex], "\n"));
  }

  /** When the opening literal occurs, the result is the primary rule's plan,
      the same as in the regex helpers. */
  lemma PrimaryRuleShared(text: string)
    requires PrimaryPlan(text).Some?
    ensures AssessmentPlanLast(text) == Returns(AssessmentPlan(PyStr(text)))
    ensures exists j: nat, e: nat ::
      (PrimarySpan(text, j, e) && AssessmentPlanLast(text).value == text[j + |PlanOpening|..e])
  {
  }

  /** The fallback raises exactly when no line holds the heading. */
  lemma FallbackRaises(text: string)
    requires PrimaryPlan(text).None?
    ensures AssessmentPlanLast(text).Raises? <==> NoHeadingLine(Split(text, '\n'))
    ensures AssessmentPlanLast(text).Raises? ==> AssessmentPlanLast(text).kind == "TypeError"
  {
    var lines := Split(text, '\n');
    if LastHeadingLine(lines, |lines|).Some? {
      assert HasHeading(lines[LastHeadingLine(lines, |lines|).value]);
    }
  }

  /** Otherwise the result is every line after the last line holding the
      heading: splitting the result gives back those lines, and a heading on
      the last line gives "". */
  lemma FallbackLast(text: string, i: nat)
    requires PrimaryPlan(text).None?
    requires i < |Split(text, '\n')| && HasHeading(Split(text, '\n')[i])
    requires forall k :: i < k < |Split(text, '\n')| ==> !HasHeading(Split(text, '\n')[k])
    ensures AssessmentPlanLast(text) == Returns(Join(Split(text, '\n')[i + 1..], "\n"))
    ensures i + 1 < |Split(text, '\n')| ==> Split(AssessmentPlanLast(text).value, '\n') == Split(text, '\n')[i + 1..]
    ensures i + 1 == |Split(text, '\n')| ==> AssessmentPlanLast(text).value == ""
  {
    var lines := Split(text, '\n');
    LastHeadingAt(lines, i);
    FallbackValue(text, i);
    if i + 1 < |lines| {
      SplitPiecesFree(text, '\n');
      RejoinSuffix(lines, i + 1);
    }
  }

  lemma FallbackValue(text: string, i: nat)
    requires PrimaryPlan(text).None?
    requires i < |Split(text, '\n')| && LastHeadingLine(Split(text, '\n'), |Split(text, '\n')|) == Some(i)
    ensures AssessmentPlanLast(text) == Returns(Join(Split(text, '\n')[i + 1..], "\n"))
  {
  }

  /** The two locators differ only in which heading line they take: when a
      single line holds the heading and it is not the last one, they agree. */
  lemma AgreesWithFirstHeading(text: string, i: nat)
    requires PrimaryPlan(text).None?
    requires i + 1 < |Split(text, '\n')| && HasHeading(Split(text, '\n')[i])
    requires forall k :: 0 <= k < |Split(text, '\n')| && k != i ==> !HasHeading(Split(text, '\n')[k])
    ensures AssessmentPlanLast(text) == Returns(AssessmentPlan(PyStr(text)))
  {
    var lines := Split(text, '\n');
    LastHeadingAt(lines, i);
    FirstHeadingAt(lines, i);
  }
}
