/** The condition extractor node and its regular-expression fallback
    (packages/workflows/hcc_extractor/v0/agent/nodes/condition/extraction.py). */
module Extraction {
  import opened Wrappers
  import opened Text
  import opened Records
  import opened CodeShapes
  import opened Lists

  /** Groups 1, 2 and 3 of one match of the numbered-item patterns: the whole
      block, the condition name and the condition code, before stripping. */
  datatype PatternMatch = PatternMatch(block: string, name: string, code: string)

  /** `re.finditer(pattern, text, re.MULTILINE)` for one of the two fixed
      numbered-item patterns (lines 99 and 102); their backtracking behaviour
      is left to the regular-expression engine, which the model takes as given. */
  type Finder = string -> seq<PatternMatch>

  const NoDetails := "No specific management details provided"
  const FromPlan := "Extracted from assessment plan"
  const CodeNamePrefix := "Condition with code "

  // ---------------------------------------------------------------------------
  // Data lines of one block (lines 116-129)
  // ---------------------------------------------------------------------------

  /** The characters of `[\).\s-]`. */
  predicate IsOrdinalPunct(c: char) {
    c == ')' || c == '.' || c == '-' || IsSpace(c)
  }

  /** The end of the run of `[\).\s-]` characters starting at `i`. */
  function PunctEnd(s: string, i: nat): (k: nat)
    requires i <= |s|
    ensures i <= k <= |s|
    ensures forall j :: i <= j < k ==> IsOrdinalPunct(s[j])
    ensures k < |s| ==> !IsOrdinalPunct(s[k])
    decreases |s| - i
  {
    if i < |s| && IsOrdinalPunct(s[i]) then PunctEnd(s, i + 1) else i
  }

  /** `re.sub(r"^\d+[\).\s-]+", "", line)`. The digits are greedy and no digit
      belongs to the class after them, so the prefix matches exactly when the
      maximal digit run is followed by at least one class character; it then
      covers the digits and the maximal run of class characters. */
  function RemoveOrdinal(line: string): (r: string)
    ensures |r| <= |line| && r == line[|line| - |r|..]
  {
    var d := DigitsEnd(line, 0);
    if d > 0 && d < |line| && IsOrdinalPunct(line[d]) then line[PunctEnd(line, d)..] else line
  }

  /** A line that does not start with a digit is left alone. */
  lemma RemoveOrdinalNoDigit(line: string)
    requires line == [] || !IsDigit(line[0])
    ensures RemoveOrdinal(line) == line
  {
  }

  /** An ordinal prefix (digits, then punctuation) is removed, and exactly it. */
  lemma RemoveOrdinalPrefix(digits: string, punct: string, rest: string)
    requires digits != [] && AllDigits(digits)
    requires punct != [] && forall i :: 0 <= i < |punct| ==> IsOrdinalPunct(punct[i])
    requires rest == [] || !IsOrdinalPunct(rest[0])
    ensures RemoveOrdinal(digits + punct + rest) == rest
  {
    var line := digits + punct + rest;
    DigitsEndAt(line, 0, |digits|);
    PunctEndAt(line, |digits|, |digits| + |punct|);
    assert line[|digits| + |punct|..] == rest;
  }

  lemma PunctEndAt(s: string, i: nat, m: nat)
    requires i <= m <= |s|
    requires forall j :: i <= j < m ==> IsOrdinalPunct(s[j])
    requires m < |s| ==> !IsOrdinalPunct(s[m])
    ensures PunctEnd(s, i) == m
    decreases m - i
  {
    if i < m {
      PunctEndAt(s, i + 1, m);
    }
  }

  /** A character absent from a line is absent from its cleaned form. */
  lemma CleanedFree(line: string, c: char)
    requires c !in line
    ensures c !in Cleaned(line)
  {
    SliceFree(line, c, |line| - |RemoveOrdinal(line)|, |line|);
    StripFree(RemoveOrdinal(line), c);
  }

  /** A data line after cleaning: the ordinal prefix removed, then stripped. */
  function Cleaned(line: string): string {
    Strip(RemoveOrdinal(line))
  }

  /** A line is kept as data when it contains neither the name nor the code and
      is not blank once cleaned. */
  predicate Kept(line: string, name: string, code: string) {
    !Contains(line, name) && !Contains(line, code) && Cleaned(line) != []
  }

  /** The keep test of the data loop as a function value. */
  function KeepTest(name: string, code: string): string -> bool {
    line => Kept(line, name, code)
  }

  /** The kept lines, cleaned, in their original order:
      `[cleaned(l) for l in lines if kept(l)]`. */
  function KeptLines(lines: seq<string>, name: string, code: string): seq<string> {
    FilterMap(lines, KeepTest(name, code), Cleaned)
  }

  /** Every kept line is non-empty, already stripped and the cleaned form of a
      given line that contains neither the name nor the code. */
  lemma KeptLinesFrom(lines: seq<string>, name: string, code: string)
    ensures forall x :: x in KeptLines(lines, name, code) ==>
      x != [] && Strip(x) == x &&
      exists k :: 0 <= k < |lines| && !Contains(lines[k], name) && !Contains(lines[k], code) && x == Cleaned(lines[k])
  {
    FilterMapFrom(lines, KeepTest(name, code), Cleaned);
    forall x | x in KeptLines(lines, name, code) ensures x != [] && Strip(x) == x {
      var k :| 0 <= k < |lines| && Kept(lines[k], name, code) && x == Cleaned(lines[k]);
      StripProperties(RemoveOrdinal(lines[k]));
    }
  }

  /** Every line that contains neither the name nor the code and is not blank
      once cleaned contributes its cleaned form. */
  lemma KeptLinesHas(lines: seq<string>, k: nat, name: string, code: string)
    requires k < |lines| && !Contains(lines[k], name) && !Contains(lines[k], code) && Cleaned(lines[k]) != []
    ensures Cleaned(lines[k]) in KeptLines(lines, name, code)
  {
    FilterMapHas(lines, k, KeepTest(name, code), Cleaned);
  }

  /** Kept lines taken from lines without `c` are without `c`. */
  lemma KeptLinesFree(lines: seq<string>, name: string, code: string, c: char)
    requires forall j :: 0 <= j < |lines| ==> c !in lines[j]
    ensures forall x :: x in KeptLines(lines, name, code) ==> c !in x
  {
    FilterMapFrom(lines, KeepTest(name, code), Cleaned);
    forall x | x in KeptLines(lines, name, code) ensures c !in x {
      var k :| 0 <= k < |lines| && Kept(lines[k], name, code) && x == Cleaned(lines[k]);
      CleanedFree(lines[k], c);
    }
  }

  /** An empty name occurs in every line, so no line is kept. */
  lemma EmptyNameKeepsNothing(lines: seq<string>, code: string)
    ensures KeptLines(lines, [], code) == []
  {
    forall k | 0 <= k < |lines| ensures !KeepTest([], code)(lines[k]) {
      assert Contains(lines[k], []);
    }
    FilterMapNone(lines, KeepTest([], code), Cleaned);
  }

  /** The data-line loop of lines 117-123. */
  method CollectDataLines(lines: seq<string>, name: string, code: string) returns (kept: seq<string>)
    ensures kept == KeptLines(lines, name, code)
  {
    kept := [];
    var i := 0;
    while i < |lines|
      invariant 0 <= i <= |lines|
      invariant kept == KeptLines(lines[..i], name, code)
    {
      assert lines[..i + 1] == lines[..i] + [lines[i]];
      FilterMapSnoc(lines[..i], lines[i], KeepTest(name, code), Cleaned);
      var line := lines[i];
      if !Contains(line, name) && !Contains(line, code) {
        var cleaned := Cleaned(line);
        if cleaned != [] {
          kept := kept + [cleaned];
        }
      }
      i := i + 1;
    }
    assert lines[..i] == lines;
  }

  /** The condition data of a block: its kept lines joined by "\n", or the
      generic message when that join is empty. */
  function ConditionData(block: string, name: string, code: string): string {
    var d := Join(KeptLines(Split(block, '\n'), name, code), "\n");
    if d == [] then NoDetails else d
  }

  /** A join of a non-empty list whose first piece is non-empty is non-empty. */
  lemma JoinNonEmpty(parts: seq<string>, sep: string)
    requires |parts| >= 1 && parts[0] != []
    ensures Join(parts, sep) != []
  {
  }

  /** The data is never empty; it is the generic message when no line is kept,
      and otherwise splitting it at "\n" gives back exactly the kept lines. */
  lemma ConditionDataRoundTrip(block: string, name: string, code: string)
    ensures ConditionData(block, name, code) != []
    ensures KeptLines(Split(block, '\n'), name, code) == [] ==> ConditionData(block, name, code) == NoDetails
    ensures KeptLines(Split(block, '\n'), name, code) != [] ==>
      Split(ConditionData(block, name, code), '\n') == KeptLines(Split(block, '\n'), name, code)
  {
    var lines := Split(block, '\n');
    var kept := KeptLines(lines, name, code);
    if kept != [] {
      KeptLinesFrom(lines, name, code);
      assert kept[0] in kept;
      JoinNonEmpty(kept, "\n");
      SplitPiecesFree(block, '\n');
      KeptLinesFree(lines, name, code, '\n');
      assert forall k :: 0 <= k < |kept| ==> kept[k] in kept;
      SplitJoin(kept, '\n');
    }
  }

  /** One condition from one pattern match (lines 111-135). */
  function ConditionFromMatch(m: PatternMatch): Condition {
    var block := Strip(m.block);
    var name := Strip(m.name);
    var code := Strip(m.code);
    Condition(code, name, ConditionData(block, name, code))
  }

  /** The matches of pattern 1, or those of pattern 2 when pattern 1 finds none. */
  function PatternMatches(text: string, p1: Finder, p2: Finder): seq<PatternMatch> {
    if p1(text) != [] then p1(text) else p2(text)
  }

  /** The conditions of lines 98-135: one per match, in match order. */
  function PatternConditions(text: string, p1: Finder, p2: Finder): seq<Condition> {
    Map(PatternMatches(text, p1, p2), ConditionFromMatch)
  }

  /** The body of the loop of lines 111-135 for one match. */
  method ConditionOf(m: PatternMatch) returns (c: Condition)
    ensures c == ConditionFromMatch(m)
  {
    var block := Strip(m.block);
    var name := Strip(m.name);
    var code := Strip(m.code);
    var kept := CollectDataLines(Split(block, '\n'), name, code);
    var data := Join(kept, "\n");
    if data == [] {
      data := NoDetails;
    }
    c := Condition(code, name, data);
  }

  /** The loop of lines 111-135 over the chosen matches. */
  method MatchConditions(ms: seq<PatternMatch>) returns (conditions: seq<Condition>)
    ensures conditions == Map(ms, ConditionFromMatch)
  {
    conditions := [];
    var i := 0;
    while i < |ms|
      invariant 0 <= i <= |ms|
      invariant conditions == Map(ms[..i], ConditionFromMatch)
    {
      var c := ConditionOf(ms[i]);
      MapPrefixStep(ms, i, ConditionFromMatch);
      conditions := conditions + [c];
      i := i + 1;
    }
    assert ms[..i] == ms;
  }

  // ---------------------------------------------------------------------------
  // Last resort (lines 137-165)
  // ---------------------------------------------------------------------------

  /** The start of the line holding index `j`: just after the last "\n" before it. */
  function LineStart(s: string, j: nat): (k: nat)
    requires j <= |s|
    ensures k <= j
    ensures forall i :: k <= i < j ==> s[i] != '\n'
    ensures k > 0 ==> s[k - 1] == '\n'
  {
    if j == 0 || s[j - 1] == '\n' then j else LineStart(s, j - 1)
  }

  /** The first "\n" at or after `j`, or the end of `s`. */
  function LineStop(s: string, j: nat): (k: nat)
    requires j <= |s|
    ensures j <= k <= |s|
    ensures forall i :: j <= i < k ==> s[i] != '\n'
    ensures k < |s| ==> s[k] == '\n'
    decreases |s| - j
  {
    if j == |s| || s[j] == '\n' then j else LineStop(s, j + 1)
  }

  /** `re.search(r"[^\n]*?" + re.escape(code) + r"[^\n]*", text)`: the search
      starts at the beginning of the line holding the first occurrence of the
      code (an earlier start would have to cross a "\n" to reach the code), the
      lazy part stops at that occurrence and the greedy tail runs to the end of
      the line. So the match is the whole line that holds the first occurrence. */
  function LineWithCode(text: string, code: string): (r: Option<string>)
    requires '\n' !in code
    ensures r.Some? ==> '\n' !in r.value && Contains(r.value, code)
    ensures r.None? ==> !Contains(text, code)
  {
    ContainsIff(text, code);
    match FindFrom(text, code, 0)
    case None => None
    case Some(j) =>
      LineAround(text, code, j);
      Some(text[LineStart(text, j)..LineStop(text, j)])
  }

  /** The line around an occurrence of a code without "\n" holds all of it. */
  lemma LineAround(text: string, code: string, j: nat)
    requires '\n' !in code && IsAt(text, code, j)
    ensures LineStart(text, j) <= j && j + |code| <= LineStop(text, j)
    ensures var line := text[LineStart(text, j)..LineStop(text, j)]; '\n' !in line && Contains(line, code)
  {
    var lo := LineStart(text, j);
    var hi := LineStop(text, j);
    var line := text[lo..hi];
    SubSlice(text, lo, hi, j, j + |code|);
    assert IsAt(line, code, j - lo);
    ContainsIff(line, code);
  }

  /** The first index at or after `i` holding '-' or "\n", or the end of `s`:
      how far the group `[^-\n]+` can reach from `i`. */
  function NameStop(s: string, i: nat): (k: nat)
    requires i <= |s|
    ensures i <= k <= |s|
    ensures forall j :: i <= j < k ==> s[j] != '-' && s[j] != '\n'
    ensures k < |s| ==> s[k] == '-' || s[k] == '\n'
    decreases |s| - i
  {
    if i == |s| || s[i] == '-' || s[i] == '\n' then i else NameStop(s, i + 1)
  }

  /** Where the code must start after a name that ends at `e`: past the greedy
      `\s*[-]*\s*`. A code starts with a letter, which is neither white space nor
      '-', so the greedy reading is the only one that can be followed by it. */
  function SeparatorEnd(s: string, e: nat): (k: nat)
    requires e <= |s|
    ensures e <= k <= |s|
  {
    SpacesEnd(s, CharRunEnd(s, SpacesEnd(s, e), '-'))
  }

  /** After a name that ends at `e`, the separator and then the code follow. */
  predicate CodeFollows(line: string, code: string, e: nat) {
    e <= |line| && IsAt(line, code, SeparatorEnd(line, e))
  }

  function CodeFollowsTest(line: string, code: string): nat -> bool {
    (e: nat) => CodeFollows(line, code, e)
  }

  /** The end the greedy group `[^-\n]+` started at `s` backs off to: the
      largest `e` up to the first '-' or "\n" after which the separator and the
      code follow. */
  function LastNameEnd(line: string, code: string, s: nat): Option<nat>
    requires s <= |line|
  {
    LastWhere(CodeFollowsTest(line, code), s, NameStop(line, s))
  }

  /** The group can start at `s`. */
  predicate NameStartsAt(line: string, code: string, s: nat) {
    s <= |line| && LastNameEnd(line, code, s).Some?
  }

  function NameStartsTest(line: string, code: string): nat -> bool {
    (s: nat) => NameStartsAt(line, code, s)
  }

  /** `re.search(r"([^-\n]+)\s*[-]*\s*" + re.escape(code), line)`: the
      leftmost start at which the group can be followed by the separator and the
      code, with the group's end as backtracking chooses it; the group holds no
      '-' and no "\n", and the code follows it. */
  function NameSearch(line: string, code: string): (r: Option<(nat, nat)>)
    ensures r.Some? ==> r.value.0 < r.value.1 <= |line| && CodeFollows(line, code, r.value.1)
    ensures r.Some? ==> forall j :: r.value.0 <= j < r.value.1 ==> line[j] != '-' && line[j] != '\n'
    ensures r.Some? ==> forall t :: 0 <= t < r.value.0 ==> !NameStartsAt(line, code, t)
    ensures r.None? ==> forall t :: 0 <= t < |line| ==> !NameStartsAt(line, code, t)
  {
    var p := NameStartsTest(line, code);
    assert forall t: nat :: p(t) == NameStartsAt(line, code, t);
    match FirstWhere(p, 0, |line|)
    case None => None
    case Some(s) =>
      var e := LastNameEnd(line, code, s).value;
      assert CodeFollowsTest(line, code)(e);
      Some((s, e))
  }

  /** A slice whose characters all differ from `c` does not contain `c`. */
  lemma SliceWithout(s: string, i: nat, j: nat, c: char)
    requires i <= j <= |s|
    requires forall k :: i <= k < j ==> s[k] != c
    ensures c !in s[i..j]
  {
    forall k | 0 <= k < j - i ensures s[i..j][k] != c {
      assert s[i..j][k] == s[i + k];
    }
  }

  /** The condition name of the last-resort tier: the stripped group, or the
      default built from the code. A found name holds no '-' and no line break
      and is already stripped. */
  function LastResortName(line: string, code: string): (name: string)
    ensures NameSearch(line, code).Some? ==> '-' !in name && '\n' !in name && Strip(name) == name
    ensures NameSearch(line, code).None? ==> name == CodeNamePrefix + code
  {
    match NameSearch(line, code)
    case Some((s, e)) =>
      SliceWithout(line, s, e, '-');
      SliceWithout(line, s, e, '\n');
      StripFree(line[s..e], '-');
      StripFree(line[s..e], '\n');
      StripProperties(line[s..e]);
      Strip(line[s..e])
    case None => CodeNamePrefix + code
  }

  /** The last-resort condition for one code found by the code search. */
  function LastResortCondition(text: string, code: string): Option<Condition>
    requires '\n' !in code
  {
    match LineWithCode(text, code)
    case None => None
    case Some(line) => Some(Condition(code, LastResortName(line, code), FromPlan))
  }

  /** One last-resort condition per code, in the order the codes were found. */
  function LastResortConditions(text: string, codes: seq<string>): seq<Condition>
    requires forall k :: 0 <= k < |codes| ==> '\n' !in codes[k]
  {
    if codes == [] then []
    else
      Found(LastResortCondition(text, codes[0])) + LastResortConditions(text, codes[1..])
  }

  /** A dotted code holds no line break. */
  lemma DottedCodeNoNewline(c: string)
    requires IsDottedCode(c)
    ensures '\n' !in c
  {
    var d := DigitsEnd(c, 1);
    forall i | 0 <= i < |c| ensures c[i] != '\n' {
      if i == 0 {
      } else if i < d {
        assert IsDigit(c[i]);
      } else if i > d {
        assert IsDigit(c[i]);
      }
    }
  }

  /** The dotted codes of a text, each with no line break. */
  function TextCodes(text: string): (codes: seq<string>)
    ensures forall k :: 0 <= k < |codes| ==> IsDottedCode(codes[k]) && Occurs(text, codes[k])
    ensures forall k :: 0 <= k < |codes| ==> '\n' !in codes[k]
  {
    var codes := DottedCodes(text, 0);
    forall k | 0 <= k < |codes| ensures '\n' !in codes[k] {
      DottedCodeNoNewline(codes[k]);
    }
    codes
  }

  /** When every code occurs in the text, the last resort yields exactly one
      condition per code, with that code and the fixed data text. */
  lemma {:induction false} LastResortOnePerCode(text: string, codes: seq<string>)
    requires forall k :: 0 <= k < |codes| ==> '\n' !in codes[k] && Occurs(text, codes[k])
    ensures |LastResortConditions(text, codes)| == |codes|
    ensures forall k :: 0 <= k < |codes| ==>
      LastResortConditions(text, codes)[k].code == codes[k] && LastResortConditions(text, codes)[k].data == FromPlan
  {
    if codes != [] {
      LastResortOnePerCode(text, codes[1..]);
      ContainsIff(text, codes[0]);
      assert LastResortCondition(text, codes[0]).Some?;
    }
  }

  /** The last-resort loop of lines 143-165. */
  method LastResort(text: string) returns (conditions: seq<Condition>)
    ensures conditions == LastResortConditions(text, TextCodes(text))
  {
    var codes := TextCodes(text);
    conditions := [];
    var i := 0;
    while i < |codes|
      invariant 0 <= i <= |codes|
      invariant conditions + LastResortConditions(text, codes[i..]) == LastResortConditions(text, codes)
    {
      var before := conditions;
      var code := codes[i];
      var found := LineWithCode(text, code);
      if found.Some? {
        var name := LastResortName(found.value, code);
        conditions := conditions + [Condition(code, name, FromPlan)];
      }
      LastResortStep(text, codes, i, before, conditions);
      i := i + 1;
    }
    assert codes[i..] == [];
  }

  /** One turn of the loop of `LastResort` keeps its invariant. */
  lemma LastResortStep(text: string, codes: seq<string>, i: nat, before: seq<Condition>, after: seq<Condition>)
    requires forall k :: 0 <= k < |codes| ==> '\n' !in codes[k]
    requires i < |codes|
    requires before + LastResortConditions(text, codes[i..]) == LastResortConditions(text, codes)
    requires after == before + Found(LastResortCondition(text, codes[i]))
    ensures after + LastResortConditions(text, codes[i + 1..]) == LastResortConditions(text, codes)
  {
    LastResortUnfold(text, codes, i);
    AppendAssoc(before, Found(LastResortCondition(text, codes[i])), LastResortConditions(text, codes[i + 1..]));
  }

  /** The conditions from code `i` on: the one of code `i`, if any, then the
      rest. */
  lemma LastResortUnfold(text: string, codes: seq<string>, i: nat)
    requires forall k :: 0 <= k < |codes| ==> '\n' !in codes[k]
    requires i < |codes|
    ensures LastResortConditions(text, codes[i..]) ==
      Found(LastResortCondition(text, codes[i])) + LastResortConditions(text, codes[i + 1..])
  {
    assert codes[i..][1..] == codes[i + 1..];
    assert codes[i..][0] == codes[i];
  }

  /** The condition found for a code, as a sequence of zero or one. */
  function Found(c: Option<Condition>): (r: seq<Condition>)
    ensures c.None? ==> r == []
    ensures c.Some? ==> r == [c.value]
  {
    match c
    case None => []
    case Some(x) => [x]
  }

  // ---------------------------------------------------------------------------
  // extract_conditions_with_regex and condition_extractor
  // ---------------------------------------------------------------------------

  /** What `extract_conditions_with_regex` returns: the pattern conditions, or,
      when there are none, the last-resort conditions. */
  function RegexConditions(text: string, p1: Finder, p2: Finder): seq<Condition> {
    var first := PatternConditions(text, p1, p2);
    if first != [] then first else LastResortConditions(text, TextCodes(text))
  }

  /** `extract_conditions_with_regex` (lines 86-167). */
  method ExtractConditionsWithRegex(text: string, p1: Finder, p2: Finder) returns (conditions: seq<Condition>)
    ensures conditions == RegexConditions(text, p1, p2)
  {
    var matches := p1(text);
    if matches == [] {
      matches := p2(text);
    }
    conditions := MatchConditions(matches);
    if conditions == [] {
      conditions := LastResort(text);
    }
  }

  /** With pattern matches there is one condition per match; each takes its
      code and name from the stripped groups of its match, and its data is never
      empty. */
  lemma PatternTierShape(text: string, p1: Finder, p2: Finder, i: nat)
    requires i < |PatternMatches(text, p1, p2)|
    ensures |RegexConditions(text, p1, p2)| == |PatternMatches(text, p1, p2)|
    ensures var m := PatternMatches(text, p1, p2)[i]; var c := RegexConditions(text, p1, p2)[i];
      c.code == Strip(m.code) && c.name == Strip(m.name) && c.data != []
  {
    var ms := PatternMatches(text, p1, p2);
    MapAt(ms, ConditionFromMatch, i);
    ConditionDataRoundTrip(Strip(ms[i].block), Strip(ms[i].name), Strip(ms[i].code));
  }

  /** What both numbered-item patterns guarantee of a match found in `text`:
      group 1 is a piece of the text that opens with the item's digits (`\d+`),
      group 2 a non-empty run without '-' or a line break inside it
      (`[^-\n]+`, or `[^-\n\d]+`), and group 3 a dotted code inside it
      (`[A-Z]\d+\.\d+`). */
  ghost predicate MatchShape(text: string, m: PatternMatch) {
    Occurs(text, m.block) && m.block != [] && IsDigit(m.block[0]) &&
    m.name != [] && '-' !in m.name && '\n' !in m.name && Occurs(m.block, m.name) &&
    IsDottedCode(m.code) && Occurs(m.block, m.code)
  }

  ghost predicate MatchesShaped(text: string, ms: seq<PatternMatch>) {
    forall k :: 0 <= k < |ms| ==> MatchShape(text, ms[k])
  }

  /** For matches as the patterns produce them, the pattern conditions carry
      the match's code unchanged, a dotted code that occurs in the text, and a
      name that occurs in the text and holds neither '-' nor a line break. */
  lemma PatternTierFromText(text: string, p1: Finder, p2: Finder, i: nat)
    requires MatchesShaped(text, p1(text)) && MatchesShaped(text, p2(text))
    requires i < |PatternMatches(text, p1, p2)|
    ensures var m := PatternMatches(text, p1, p2)[i]; var c := RegexConditions(text, p1, p2)[i];
      c.code == m.code && IsDottedCode(c.code) && Occurs(text, c.code) &&
      '-' !in c.name && '\n' !in c.name && Occurs(text, c.name) && c.data != []
  {
    PatternTierShape(text, p1, p2, i);
    var m := PatternMatches(text, p1, p2)[i];
    assert MatchShape(text, m);
    DottedStripped(m.code);
    OccursWithin(text, m.block, m.code);
    StripFree(m.name, '-');
    StripFree(m.name, '\n');
    OccursWithin(text, m.block, m.name);
    StripOccurs(m.name);
    OccursWithin(text, m.name, Strip(m.name));
  }

  /** Without pattern matches, the conditions are exactly the dotted codes of
      the text, in order, each with the fixed data text. */
  lemma LastResortTierShape(text: string, p1: Finder, p2: Finder)
    requires PatternMatches(text, p1, p2) == []
    ensures |RegexConditions(text, p1, p2)| == |TextCodes(text)|
    ensures forall k :: 0 <= k < |TextCodes(text)| ==>
      RegexConditions(text, p1, p2)[k].code == TextCodes(text)[k] &&
      IsDottedCode(RegexConditions(text, p1, p2)[k].code) &&
      RegexConditions(text, p1, p2)[k].data == FromPlan
  {
    LastResortOnePerCode(text, TextCodes(text));
  }

  /** What the model of the language model returns for the extraction prompt:
      the converted conditions, or an exception. */
  type LlmResult = Outcome<seq<Condition>>

  /** `condition_extractor` (lines 16-84): no blocks give no conditions; the
      language model's conditions are kept when there are any; otherwise the
      regex fallback on the assessment plan is used when it finds something. */
  method ConditionExtractor(blocks: seq<string>, assessmentPlan: string, llm: LlmResult, p1: Finder, p2: Finder)
    returns (raw: seq<Condition>)
    ensures blocks == [] ==> raw == []
    ensures blocks != [] && llm.Returns? && llm.value != [] ==> raw == llm.value
    ensures blocks != [] && (llm.Raises? || llm.value == []) ==> raw == RegexConditions(assessmentPlan, p1, p2)
  {
    if blocks == [] {
      return [];
    }
    if llm.Returns? {
      raw := llm.value;
    } else {
      raw := [];
    }
    if raw == [] {
      var fallback := ExtractConditionsWithRegex(assessmentPlan, p1, p2);
      if fallback != [] {
        raw := fallback;
      }
    }
  }
}
